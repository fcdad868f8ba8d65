/**
 Publication of an index (python/parqdb/publish.py): the object list with the manifest as commit
 marker, and the upload to an object store or a local directory with failures and cleanup.
 */
module Publish {
  import opened Wrappers

  type Bytes = seq<int>

  /** What a manifest says about an object. */
  datatype Descriptor = Descriptor(path: string, size: nat, sha256: string)

  /** A stored object: data, or the manifest document with the objects it lists. */
  datatype Content = Blob(bytes: Bytes) | Document(lists: seq<Descriptor>)

  datatype Object = Object(path: string, content: Content)

  const MANIFEST := "manifest.json"

  type Store = map<string, Content>

  // ---------- the object list ----------

  /** A file to publish under a path; `file` is absent when there is none. */
  datatype Asset = Asset(path: string, file: Option<Bytes>)

  /** What the index manifest says about an object; a member is absent when it is missing or of another type. */
  datatype Entry = Entry(path: Option<string>, size: Option<int>, sha256: Option<string>) | NotAnObject

  /** The index manifest as read: `hierarchy.centroids` and `postings.files`, if they are there. */
  datatype IndexManifest = IndexManifest(centroids: Option<Entry>, files: Option<seq<Entry>>)

  /** The inputs: the index manifest and files, an optional source table, and embedding assets. */
  datatype Inputs = Inputs(
    index: IndexManifest, root: map<string, Bytes>, source: Option<Asset>,
    embedding: bool, assets: seq<Asset>)

  function Describe(path: string, bytes: Bytes, sha: Bytes -> string): Descriptor
  {
    Descriptor(path, |bytes|, sha(bytes))
  }

  predicate Matches(d: Descriptor, bytes: Bytes, sha: Bytes -> string)
  {
    |bytes| == d.size && sha(bytes) == d.sha256
  }

  predicate Shaped(m: IndexManifest)
  {
    m.centroids.Some? && m.files.Some?
  }

  /** The centroids and then the postings files. */
  function Entries(m: IndexManifest): seq<Entry>
  {
    (if m.centroids.Some? then [m.centroids.value] else []) + (if m.files.Some? then m.files.value else [])
  }

  /** A complete entry with a safe path, which describes an existing file truthfully. */
  predicate EntryOk(e: Entry, root: map<string, Bytes>, sha: Bytes -> string, safe: string -> bool)
  {
    && e.Entry? && e.path.Some? && safe(e.path.value) && e.path.value in root
    && var bytes := root[e.path.value];
       e.size == Some(|bytes|) && e.sha256 == Some(sha(bytes))
  }

  function DescriptorOf(e: Entry): Descriptor
  {
    if e.Entry? && e.path.Some? && e.size.Some? && e.size.value >= 0 && e.sha256.Some?
    then Descriptor(e.path.value, e.size.value, e.sha256.value) else Descriptor("", 0, "")
  }

  predicate AssetOk(a: Asset, safe: string -> bool)
  {
    safe(a.path) && a.file.Some?
  }

  // ---------- what a publication is ----------

  /** An entry that names a safe path and describes the file there truthfully. */
  ghost predicate Truthful(e: Entry, root: map<string, Bytes>, sha: Bytes -> string, safe: string -> bool)
  {
    && e.Entry? && e.path.Some? && safe(e.path.value) && e.path.value in root
    && e.size == Some(|root[e.path.value]|) && e.sha256 == Some(sha(root[e.path.value]))
  }

  /** When `_publication_objects` succeeds. */
  ghost predicate InputsOk(inputs: Inputs, sha: Bytes -> string, safe: string -> bool)
  {
    && inputs.index.centroids.Some? && inputs.index.files.Some?
    && (forall e :: e in [inputs.index.centroids.value] + inputs.index.files.value ==> Truthful(e, inputs.root, sha, safe))
    && (inputs.source.Some? ==> inputs.source.value.file.Some?)
    && (inputs.embedding <==> inputs.assets != [])
    && (forall a :: a in inputs.assets ==> safe(a.path) && a.file.Some?)
  }

  /** A file under the path it is published at. */
  datatype File = File(path: string, bytes: Bytes)

  ghost function FileOf(e: Entry, root: map<string, Bytes>): File
  {
    if e.Entry? && e.path.Some? && e.path.value in root then File(e.path.value, root[e.path.value]) else File("", [])
  }

  ghost function AssetFile(a: Asset): File
  {
    File(a.path, if a.file.Some? then a.file.value else [])
  }

  /** The centroids and the postings files. */
  ghost function IndexFiles(inputs: Inputs): seq<File>
  {
    if inputs.index.centroids.None? || inputs.index.files.None? then []
    else
      var entries := [inputs.index.centroids.value] + inputs.index.files.value;
      seq(|entries|, i requires 0 <= i < |entries| => FileOf(entries[i], inputs.root))
  }

  ghost function AssetFiles(assets: seq<Asset>): seq<File>
  {
    seq(|assets|, i requires 0 <= i < |assets| => AssetFile(assets[i]))
  }

  /** The files a publication uploads, in order: the index, the source table if there is one, the assets. */
  ghost function Files(inputs: Inputs): seq<File>
  {
    IndexFiles(inputs) + (if inputs.source.Some? then [AssetFile(inputs.source.value)] else []) + AssetFiles(inputs.assets)
  }

  ghost function DataObjects(files: seq<File>): (r: seq<Object>)
    ensures |r| == |files|
  {
    seq(|files|, i requires 0 <= i < |files| => Object(files[i].path, Blob(files[i].bytes)))
  }

  ghost function Descriptors(files: seq<File>, sha: Bytes -> string): (r: seq<Descriptor>)
    ensures |r| == |files|
  {
    seq(|files|, i requires 0 <= i < |files| => Descriptor(files[i].path, |files[i].bytes|, sha(files[i].bytes)))
  }

  /** What the manifest of a publication lists. */
  ghost function Announced(inputs: Inputs, sha: Bytes -> string): seq<Descriptor>
  {
    Descriptors(Files(inputs), sha)
  }

  /** The files, and then the manifest that lists each of them. */
  ghost function Publication(inputs: Inputs, sha: Bytes -> string): seq<Object>
  {
    DataObjects(Files(inputs)) + [Object("manifest.json", Document(Announced(inputs, sha)))]
  }

  /** The objects in upload order are well described: the last is the manifest, and it lists only earlier ones truthfully. */
  ghost predicate WellDescribed(objects: seq<Object>, sha: Bytes -> string)
  {
    && objects != []
    && var n := |objects| - 1;
       && objects[n].path == MANIFEST && objects[n].content.Document?
       && forall d :: d in objects[n].content.lists ==> Delivered(objects[..n], d, sha)
  }

  ghost predicate Delivered(objects: seq<Object>, d: Descriptor, sha: Bytes -> string)
  {
    exists i :: 0 <= i < |objects| && objects[i].path == d.path && objects[i].content.Blob? && Matches(d, objects[i].content.bytes, sha)
  }

  /** Every uploaded data object is listed. */
  ghost predicate ListsAll(objects: seq<Object>)
    requires objects != [] && objects[|objects| - 1].content.Document?
  {
    var n := |objects| - 1;
    forall i :: 0 <= i < n ==> Listed(objects[n].content.lists, objects[i].path)
  }

  ghost predicate Listed(lists: seq<Descriptor>, path: string)
  {
    exists i :: 0 <= i < |lists| && lists[i].path == path
  }

  method PublicationObjects(inputs: Inputs, sha: Bytes -> string, safe: string -> bool) returns (r: Result<seq<Object>, string>)
    ensures r.Ok? <==> InputsOk(inputs, sha, safe)
    ensures r.Ok? ==> r.value == Publication(inputs, sha)
    ensures r.Ok? ==> WellDescribed(r.value, sha) && ListsAll(r.value) && SamePaths(r.value, Announced(inputs, sha))
  {
    hide WellDescribed, ListsAll, SamePaths, Truthful, DataObjects, Descriptors, IndexFiles, AssetFiles;
    if inputs.source.Some? && inputs.source.value.file.None? { return Err("source Parquet file does not exist"); }
    if !Shaped(inputs.index) { return Err("index manifest is missing hierarchy or postings"); }
    var found, objects, lists := IndexObjects(inputs, sha, safe);
    if !found { return Err("index object does not match manifest"); }
    ghost var files := IndexFiles(inputs);
    if inputs.source.Some? {
      var name, bytes := inputs.source.value.path, inputs.source.value.file.value;
      OneMoreFile(files, File(name, bytes), sha);
      objects, lists := objects + [Object(name, Blob(bytes))], lists + [Describe(name, bytes, sha)];
      files := files + [File(name, bytes)];
    }
    if inputs.embedding {
      if |inputs.assets| == 0 { return Err("embedding publication requires model assets"); }
      var complete: bool;
      complete, objects, lists := AppendAssets(objects, lists, files, inputs.assets, sha, safe);
      if !complete { return Err("model asset does not exist"); }
    } else if |inputs.assets| != 0 {
      return Err("model assets require an embedding descriptor");
    }
    NoAssets(inputs.assets, files);
    assert Files(inputs) == files + AssetFiles(inputs.assets);
    PublicationDescribed(Files(inputs), sha);
    return Ok(objects + [Object(MANIFEST, Document(lists))]);
  }

  lemma NoAssets(assets: seq<Asset>, files: seq<File>)
    ensures assets == [] ==> files + AssetFiles(assets) == files
  {
  }

  lemma OneMoreFile(files: seq<File>, file: File, sha: Bytes -> string)
    ensures DataObjects(files + [file]) == DataObjects(files) + [Object(file.path, Blob(file.bytes))]
    ensures Descriptors(files + [file], sha) == Descriptors(files, sha) + [Descriptor(file.path, |file.bytes|, sha(file.bytes))]
  {
  }

  lemma NoFiles(sha: Bytes -> string)
    ensures DataObjects([]) == [] && Descriptors([], sha) == []
  {
  }

  /** The objects of the index itself, each checked against its entry. */
  method IndexObjects(inputs: Inputs, sha: Bytes -> string, safe: string -> bool)
    returns (ok: bool, objects: seq<Object>, lists: seq<Descriptor>)
    requires Shaped(inputs.index)
    ensures ok <==> forall e :: e in [inputs.index.centroids.value] + inputs.index.files.value ==> Truthful(e, inputs.root, sha, safe)
    ensures ok ==> objects == DataObjects(IndexFiles(inputs)) && lists == Descriptors(IndexFiles(inputs), sha)
  {
    hide DataObjects, Descriptors;
    var entries := Entries(inputs.index);
    assert entries == [inputs.index.centroids.value] + inputs.index.files.value;
    ghost var files := IndexFiles(inputs);
    objects, lists := [], [];
    NoFiles(sha);
    for i := 0 to |entries|
      invariant forall j :: 0 <= j < i ==> Truthful(entries[j], inputs.root, sha, safe)
      invariant objects == DataObjects(files[..i]) && lists == Descriptors(files[..i], sha)
    {
      if !EntryOk(entries[i], inputs.root, sha, safe) {
        assert entries[i] in entries;
        return false, objects, lists;
      }
      var d := DescriptorOf(entries[i]);
      assert files[i] == File(d.path, inputs.root[d.path]) && files[..i + 1] == files[..i] + [files[i]];
      OneMoreFile(files[..i], files[i], sha);
      objects, lists := objects + [Object(d.path, Blob(inputs.root[d.path]))], lists + [d];
    }
    assert files[..|entries|] == files;
    return true, objects, lists;
  }

  method AppendAssets(before: seq<Object>, listed: seq<Descriptor>, ghost files: seq<File>, assets: seq<Asset>,
                      sha: Bytes -> string, safe: string -> bool)
    returns (ok: bool, objects: seq<Object>, lists: seq<Descriptor>)
    requires before == DataObjects(files) && listed == Descriptors(files, sha)
    ensures ok <==> forall a :: a in assets ==> safe(a.path) && a.file.Some?
    ensures ok ==> objects == DataObjects(files + AssetFiles(assets)) && lists == Descriptors(files + AssetFiles(assets), sha)
  {
    hide DataObjects, Descriptors;
    objects, lists := before, listed;
    ghost var all := AssetFiles(assets);
    assert files + all[..0] == files;
    for i := 0 to |assets|
      invariant forall j :: 0 <= j < i ==> safe(assets[j].path) && assets[j].file.Some?
      invariant objects == DataObjects(files + all[..i]) && lists == Descriptors(files + all[..i], sha)
    {
      var a := assets[i];
      if !AssetOk(a, safe) {
        assert a in assets;
        return false, objects, lists;
      }
      assert files + all[..i + 1] == (files + all[..i]) + [all[i]];
      OneMoreFile(files + all[..i], all[i], sha);
      objects := objects + [Object(a.path, Blob(a.file.value))];
      lists := lists + [Describe(a.path, a.file.value, sha)];
    }
    assert all[..|assets|] == all;
    return true, objects, lists;
  }

  lemma PublicationDescribed(files: seq<File>, sha: Bytes -> string)
    ensures var lists := Descriptors(files, sha);
            var all := DataObjects(files) + [Object(MANIFEST, Document(lists))];
            WellDescribed(all, sha) && ListsAll(all) && SamePaths(all, lists)
  {
    var data, lists := DataObjects(files), Descriptors(files, sha);
    var all := data + [Object(MANIFEST, Document(lists))];
    assert all[..|files|] == data;
    forall d | d in lists ensures Delivered(data, d, sha) {
      var i :| 0 <= i < |lists| && lists[i] == d;
      assert data[i].path == d.path;
    }
    forall i | 0 <= i < |files| ensures Listed(lists, all[i].path) {
      assert lists[i].path == all[i].path;
    }
  }

  /** The objects carry the listed paths in order, and the manifest's last. */
  ghost predicate SamePaths(objects: seq<Object>, lists: seq<Descriptor>)
  {
    && |objects| == |lists| + 1 && objects[|lists|].path == MANIFEST
    && forall i :: 0 <= i < |lists| ==> objects[i].path == lists[i].path
  }

  /** No path is listed twice, and none is the manifest's. */
  ghost predicate UniqueListing(lists: seq<Descriptor>)
  {
    && (forall i, j :: 0 <= i < j < |lists| ==> lists[i].path != lists[j].path)
    && (forall i :: 0 <= i < |lists| ==> lists[i].path != MANIFEST)
  }

  lemma UniqueAsListed(objects: seq<Object>, lists: seq<Descriptor>)
    requires SamePaths(objects, lists)
    ensures UniquePaths(objects) <==> UniqueListing(lists)
  {
    if UniquePaths(objects) {
      forall i | 0 <= i < |lists| ensures lists[i].path != MANIFEST {
        assert objects[i].path != objects[|lists|].path;
      }
      forall i, j | 0 <= i < j < |lists| ensures lists[i].path != lists[j].path {
        assert objects[i].path != objects[j].path;
      }
    }
  }

  ghost predicate UniquePaths(objects: seq<Object>)
  {
    forall i, j :: 0 <= i < j < |objects| ==> objects[i].path != objects[j].path
  }

  method EnsureUniquePaths(objects: seq<Object>) returns (ok: bool)
    ensures ok <==> UniquePaths(objects)
  {
    var seen: set<string> := {};
    for i := 0 to |objects|
      invariant forall p :: p in seen <==> exists k :: 0 <= k < i && objects[k].path == p
      invariant forall k, j :: 0 <= k < j < i ==> objects[k].path != objects[j].path
    {
      if objects[i].path in seen { return false; }
      seen := seen + {objects[i].path};
    }
    return true;
  }

  // ---------- the writer ----------

  function Key(prefix: string, path: string): string { prefix + "/" + path }

  lemma KeyInjective(prefix: string, a: string, b: string)
    ensures Key(prefix, a) == Key(prefix, b) <==> a == b
  {
    var n := |prefix| + 1;
    assert Key(prefix, a)[n..] == a && Key(prefix, b)[n..] == b;
  }

  /** What a reader finds of an unfinished write: the whole content, or other bytes, such as a prefix. */
  datatype Shown = Whole | Part(bytes: Bytes)

  /** A failed write may leave something visible; the writer then tries to delete it, which may fail too. */
  datatype End = Stored | Absent | Left(shown: Shown, retracted: bool)

  /** What is visible of an object while it is written, and how its write ends. */
  datatype Fate = Fate(onTheWay: seq<Shown>, end: End)

  /**
   The environment: the fate of each write, which cleanup deletes succeed, whether a directory can be
   made, and in which order the files of a directory tree are deleted.
   */
  datatype World = World(writes: nat -> Fate, deletes: string -> bool, mkdir: bool, sweep: seq<string>)

  function Seen(content: Content, shown: Shown): Content
  {
    if shown.Whole? then content else Blob(shown.bytes)
  }

  /** The stores seen while an object becomes visible bit by bit. */
  function Glimpses(store: Store, key: string, content: Content, shown: seq<Shown>): (trace: seq<Store>)
    ensures |trace| == |shown|
  {
    seq(|shown|, i requires 0 <= i < |shown| => store[key := Seen(content, shown[i])])
  }

  function Ending(store: Store, key: string, content: Content, end: End): (trace: seq<Store>)
    ensures trace != []
  {
    match end
    case Stored => [store[key := content]]
    case Absent => [store]
    case Left(shown, retracted) =>
      var visible := store[key := Seen(content, shown)];
      [visible, if retracted then visible - {key} else visible]
  }

  /** The stores seen while one object is written. */
  function Attempt(store: Store, key: string, content: Content, fate: Fate): (trace: seq<Store>)
    ensures trace != []
  {
    Glimpses(store, key, content, fate.onTheWay) + Ending(store, key, content, fate.end)
  }

  function Last(store: Store, trace: seq<Store>): Store
  {
    if trace == [] then store else trace[|trace| - 1]
  }

  datatype Upload = Upload(trace: seq<Store>, failed: Option<nat>)

  /** The write loop from object `i` on. */
  function Uploads(store: Store, prefix: string, objects: seq<Object>, w: World, i: nat): (u: Upload)
    requires i <= |objects|
    ensures u.failed.Some? ==> i <= u.failed.value < |objects|
    decreases |objects| - i
  {
    if i == |objects| then Upload([], None)
    else
      var step := Attempt(store, Key(prefix, objects[i].path), objects[i].content, w.writes(i));
      if w.writes(i).end != Stored then Upload(step, Some(i))
      else
        var rest := Uploads(Last(store, step), prefix, objects, w, i + 1);
        Upload(step + rest.trace, rest.failed)
  }

  lemma UploadsUnfold(store: Store, prefix: string, objects: seq<Object>, w: World, i: nat)
    requires i < |objects|
    ensures var step := Attempt(store, Key(prefix, objects[i].path), objects[i].content, w.writes(i));
            var u, rest := Uploads(store, prefix, objects, w, i), Uploads(Last(store, step), prefix, objects, w, i + 1);
            if w.writes(i).end != Stored then u == Upload(step, Some(i)) else u == Upload(step + rest.trace, rest.failed)
  {
    hide Attempt, Key, Last;
  }

  /** Deleting keys one by one, as far as the store lets it. */
  function Deletions(store: Store, order: seq<string>, w: World): (trace: seq<Store>)
  {
    if order == [] then []
    else
      var next := if w.deletes(order[0]) then store - {order[0]} else store;
      [next] + Deletions(next, order[1..], w)
  }

  function Backwards(keys: seq<string>): (r: seq<string>)
    ensures |r| == |keys|
    ensures forall k :: k in r <==> k in keys
  {
    if keys == [] then []
    else
      var n := |keys| - 1;
      assert keys == keys[..n] + [keys[n]];
      [keys[n]] + Backwards(keys[..n])
  }

  lemma {:induction false} BackwardsAt(keys: seq<string>, i: nat)
    requires i < |keys|
    ensures Backwards(keys)[i] == keys[|keys| - 1 - i]
  {
    if i > 0 { BackwardsAt(keys[..|keys| - 1], i - 1); }
  }

  /** The keys of the first `n` objects. */
  function Keys(prefix: string, objects: seq<Object>, n: nat): (r: seq<string>)
    requires n <= |objects|
    ensures |r| == n
  {
    seq(n, i requires 0 <= i < n => Key(prefix, objects[i].path))
  }

  /** No object's key exists, neither as an object nor as a directory above one. */
  predicate Vacant(store: Store, prefix: string, objects: seq<Object>)
  {
    forall i :: 0 <= i < |objects| ==> !PathExists(store, {}, Key(prefix, objects[i].path))
  }

  /** Every store seen during a publication, and whether it succeeded. */
  datatype Outcome = Outcome(trace: seq<Store>, published: bool)

  /** Uploading, and after a failure deleting keys in the given order. */
  function Run(store: Store, prefix: string, objects: seq<Object>, w: World, order: seq<string>): (r: Outcome)
    ensures r.trace != []
  {
    var u := Uploads(store, prefix, objects, w, 0);
    if u.failed.None? then Outcome([store] + u.trace, true)
    else Outcome([store] + u.trace + Deletions(Last(store, u.trace), order, w), false)
  }

  /** The cleanup deletes what was written completely, last first. */
  function CleanupOrder(store: Store, prefix: string, objects: seq<Object>, w: World): seq<string>
  {
    var u := Uploads(store, prefix, objects, w, 0);
    if u.failed.None? then [] else Backwards(Keys(prefix, objects, u.failed.value))
  }

  function PublishRun(store: Store, prefix: string, objects: seq<Object>, w: World): (r: Outcome)
    ensures r.trace != []
  {
    if !Vacant(store, prefix, objects) then Outcome([store], false)
    else Run(store, prefix, objects, w, CleanupOrder(store, prefix, objects, w))
  }

  /** The object-store writer, with the stores it has passed through. */
  class S3Writer {
    const prefix: string
    var store: Store
    var written: seq<string>
    ghost var trace: seq<Store>

    constructor (store: Store, prefix: string)
      ensures this.store == store && this.prefix == prefix && written == [] && trace == [store]
    {
      this.store, this.prefix, written, trace := store, prefix, [], [store];
    }

    method EnsureEmpty(objects: seq<Object>) returns (ok: bool)
      ensures ok <==> Vacant(store, prefix, objects)
      ensures ok <==> forall i, k :: 0 <= i < |objects| && k in store ==>
                        k != prefix + "/" + objects[i].path && !(prefix + "/" + objects[i].path + "/" <= k)
    {
      for i := 0 to |objects|
        invariant forall j :: 0 <= j < i ==> !PathExists(store, {}, Key(prefix, objects[j].path))
      {
        if PathExists(store, {}, Key(prefix, objects[i].path)) { return false; }
      }
      return true;
    }

    method Write(item: Object, fate: Fate) returns (ok: bool)
      modifies this
      ensures ok <==> fate.end == Stored
      ensures trace == old(trace) + Attempt(old(store), Key(prefix, item.path), item.content, fate)
      ensures store == Last(old(store), Attempt(old(store), Key(prefix, item.path), item.content, fate))
      ensures written == if ok then old(written) + [Key(prefix, item.path)] else old(written)
    {
      var path, before := Key(prefix, item.path), store;
      for i := 0 to |fate.onTheWay|
        invariant trace == old(trace) + Glimpses(before, path, item.content, fate.onTheWay)[..i]
        invariant written == old(written)
      {
        store := before[path := Seen(item.content, fate.onTheWay[i])];
        trace := trace + [store];
      }
      match fate.end {
        case Stored => store := before[path := item.content];
        case Absent => store := before;
        case Left(shown, retracted) =>
          store := before[path := Seen(item.content, shown)];
          trace := trace + [store];
          if retracted { store := store - {path}; }
      }
      trace := trace + [store];
      ok := fate.end == Stored;
      if ok { written := written + [path]; }
    }

    method CleanupAfterFailure(w: World)
      modifies this
      ensures trace == old(trace) + Deletions(old(store), Backwards(old(written)), w)
      ensures store == Last(old(store), Deletions(old(store), Backwards(old(written)), w))
      ensures written == old(written)
    {
      hide Backwards;
      ghost var all := Deletions(store, Backwards(written), w);
      ghost var done: seq<Store> := [];
      var n := |written|;
      assert written[..n] == written && [] + all == all;
      while n > 0
        invariant 0 <= n <= |written| && written == old(written)
        invariant trace == old(trace) + done && store == Last(old(store), done)
        invariant done + Deletions(store, Backwards(written[..n]), w) == all
      {
        BackwardsStep(written[..n]);
        assert written[..n][..n - 1] == written[..n - 1];
        n := n - 1;
        if w.deletes(written[n]) { store := store - {written[n]}; }
        trace := trace + [store];
        ghost var rest := Deletions(store, Backwards(written[..n]), w);
        Reassociate(done, [store], rest);
        done := done + [store];
      }
      BackwardsStep(written[..0]);
      assert done + [] == done;
    }

    method UploadAll(objects: seq<Object>, w: World) returns (ok: bool)
      requires written == []
      modifies this
      ensures var u := Uploads(old(store), prefix, objects, w, 0);
              && ok == u.failed.None?
              && trace == old(trace) + u.trace && store == Last(old(store), u.trace)
              && written == Keys(prefix, objects, if ok then |objects| else u.failed.value)
    {
      hide Uploads, Attempt, Key, Last;
      ghost var all := Uploads(store, prefix, objects, w, 0);
      ghost var taken: seq<Store> := [];
      StartsWithNothing(store);
      for i := 0 to |objects|
        invariant written == Keys(prefix, objects, i)
        invariant trace == old(trace) + taken && store == Last(old(store), taken)
        invariant taken + Uploads(store, prefix, objects, w, i).trace == all.trace
        invariant Uploads(store, prefix, objects, w, i).failed == all.failed
      {
        UploadsUnfold(store, prefix, objects, w, i);
        ghost var before, step := taken, Attempt(store, Key(prefix, objects[i].path), objects[i].content, w.writes(i));
        ok := Write(objects[i], w.writes(i));
        taken := taken + step;
        Extended(old(store), old(trace), before, step);
        if !ok { return false; }
        Reassociate(before, step, Uploads(store, prefix, objects, w, i + 1).trace);
      }
      NothingLeft(store, prefix, objects, w);
      assert taken + [] == taken;
      return true;
    }

    /** The writing part of `publish`. */
    method PublishObjects(objects: seq<Object>, w: World) returns (published: bool)
      requires written == [] && trace == [store]
      modifies this
      ensures Outcome(trace, published) == PublishRun(old(store), prefix, objects, w)
      ensures store == trace[|trace| - 1]
    {
      hide Uploads, Deletions, Keys, Backwards, Vacant;
      var empty := EnsureEmpty(objects);
      if !empty { return false; }
      published := UploadAll(objects, w);
      if !published { CleanupAfterFailure(w); }
    }
  }

  lemma BackwardsStep(keys: seq<string>)
    ensures keys == [] ==> Backwards(keys) == []
    ensures keys != [] ==> var n := |keys| - 1; Backwards(keys)[0] == keys[n] && Backwards(keys)[1..] == Backwards(keys[..n])
  {
  }

  lemma StartsWithNothing(store: Store)
    ensures Last(store, []) == store
  {
  }

  lemma Reassociate(a: seq<Store>, b: seq<Store>, c: seq<Store>)
    ensures a + (b + c) == (a + b) + c
  {
  }

  lemma Extended(store: Store, trace: seq<Store>, taken: seq<Store>, step: seq<Store>)
    requires step != []
    ensures (trace + taken) + step == trace + (taken + step)
    ensures Last(Last(store, taken), step) == Last(store, taken + step)
  {
  }

  lemma NothingLeft(store: Store, prefix: string, objects: seq<Object>, w: World)
    ensures Uploads(store, prefix, objects, w, |objects|) == Upload([], None)
  {
  }

  // ---------- the local directory ----------

  predicate UnderRoot(root: string, key: string)
  {
    root + "/" <= key
  }

  /** A path exists as a stored file, as a directory above one, or as a directory without files. */
  predicate PathExists(store: Store, bare: set<string>, path: string)
  {
    path in store || path in bare || exists k :: k in store && UnderRoot(path, k)
  }

  /** A publication into a directory, which must not exist yet. */
  function LocalRun(store: Store, bare: set<string>, root: string, objects: seq<Object>, w: World): (r: Outcome)
    ensures r.trace != []
  {
    if PathExists(store, bare, root) || !w.mkdir then Outcome([store], false)
    else Run(store, root, objects, w, w.sweep)
  }

  /** `bare` holds the directories known to exist whether or not they hold files. */
  class LocalWriter {
    const root: string
    var store: Store
    var bare: set<string>
    var created: bool
    ghost var trace: seq<Store>

    constructor (store: Store, bare: set<string>, root: string)
      ensures this.store == store && this.bare == bare && this.root == root && !created && trace == [store]
    {
      this.store, this.bare, this.root, created, trace := store, bare, root, false, [store];
    }

    method EnsureEmpty(w: World) returns (ok: bool)
      modifies this`created, this`bare
      ensures ok <==> w.mkdir && root !in store && root !in old(bare) && forall k :: k in store ==> !(root + "/" <= k)
      ensures ok <==> !PathExists(store, old(bare), root) && w.mkdir
      ensures created == (ok || old(created)) && bare == if ok then old(bare) + {root} else old(bare)
    {
      if PathExists(store, bare, root) { return false; }
      if !w.mkdir { return false; }
      bare := bare + {root};
      created := true;
      return true;
    }

    /** A local write has no retraction: what a failed copy left stays. */
    method Write(item: Object, fate: Fate) returns (ok: bool)
      requires fate.end.Left? ==> !fate.end.retracted
      modifies this`store, this`trace
      ensures ok <==> fate.end == Stored
      ensures var step := Attempt(old(store), Key(root, item.path), item.content, fate);
              trace == old(trace) + step && store == Last(old(store), step)
    {
      var path, before := Key(root, item.path), store;
      for i := 0 to |fate.onTheWay|
        invariant trace == old(trace) + Glimpses(before, path, item.content, fate.onTheWay)[..i]
      {
        store := before[path := Seen(item.content, fate.onTheWay[i])];
        trace := trace + [store];
      }
      match fate.end {
        case Stored => store := before[path := item.content];
        case Absent => store := before;
        case Left(shown, _) =>
          store := before[path := Seen(item.content, shown)];
          trace := trace + [store];
      }
      trace := trace + [store];
      return fate.end == Stored;
    }

    method CleanupAfterFailure(w: World)
      modifies this`store, this`trace, this`bare
      ensures created ==> trace == old(trace) + Deletions(old(store), w.sweep, w)
                          && store == Last(old(store), Deletions(old(store), w.sweep, w))
                          && bare == if w.deletes(root) then old(bare) - {root} else old(bare)
      ensures !created ==> store == old(store) && trace == old(trace) && bare == old(bare)
    {
      if !created { return; }
      ghost var all := Deletions(store, w.sweep, w);
      ghost var done: seq<Store> := [];
      for i := 0 to |w.sweep|
        invariant trace == old(trace) + done && store == Last(old(store), done) && bare == old(bare)
        invariant done + Deletions(store, w.sweep[i..], w) == all
      {
        assert w.sweep[i..][1..] == w.sweep[i + 1..];
        if w.deletes(w.sweep[i]) { store := store - {w.sweep[i]}; }
        trace := trace + [store];
        Reassociate(done, [store], Deletions(store, w.sweep[i + 1..], w));
        done := done + [store];
      }
      assert done + [] == done;
      if w.deletes(root) { bare := bare - {root}; }
    }

    method UploadAll(objects: seq<Object>, w: World) returns (ok: bool)
      requires forall i :: w.writes(i).end.Left? ==> !w.writes(i).end.retracted
      modifies this`store, this`trace
      ensures var u := Uploads(old(store), root, objects, w, 0);
              && ok == u.failed.None?
              && trace == old(trace) + u.trace && store == Last(old(store), u.trace)
    {
      hide Uploads, Attempt, Key, Last;
      ghost var all := Uploads(store, root, objects, w, 0);
      ghost var taken: seq<Store> := [];
      StartsWithNothing(store);
      for i := 0 to |objects|
        invariant trace == old(trace) + taken && store == Last(old(store), taken)
        invariant taken + Uploads(store, root, objects, w, i).trace == all.trace
        invariant Uploads(store, root, objects, w, i).failed == all.failed
      {
        UploadsUnfold(store, root, objects, w, i);
        ghost var before, step := taken, Attempt(store, Key(root, objects[i].path), objects[i].content, w.writes(i));
        ok := Write(objects[i], w.writes(i));
        taken := taken + step;
        Extended(old(store), old(trace), before, step);
        if !ok { return false; }
        Reassociate(before, step, Uploads(store, root, objects, w, i + 1).trace);
      }
      NothingLeft(store, root, objects, w);
      assert taken + [] == taken;
      return true;
    }

    method PublishObjects(objects: seq<Object>, w: World) returns (published: bool)
      requires trace == [store] && !created
      requires forall i :: w.writes(i).end.Left? ==> !w.writes(i).end.retracted
      modifies this
      ensures Outcome(trace, published) == LocalRun(old(store), old(bare), root, objects, w)
      ensures store == trace[|trace| - 1]
    {
      hide Uploads, Deletions, PathExists;
      var empty := EnsureEmpty(w);
      if !empty { return false; }
      published := UploadAll(objects, w);
      if !published { CleanupAfterFailure(w); }
    }
  }
}
