/**
 What publication guarantees in every store it passes through (python/parqdb/publish.py): the
 manifest commits, nothing that was there is touched, and a failed run can leave no trace.
 */
module PublishRuns {
  import opened Wrappers
  import opened Publish

  /** The store after the first `n` objects were written. */
  ghost function Uploaded(store: Store, prefix: string, objects: seq<Object>, n: nat): Store
    requires n <= |objects|
  {
    if n == 0 then store
    else Uploaded(store, prefix, objects, n - 1)[Key(prefix, objects[n - 1].path) := objects[n - 1].content]
  }

  /** If the manifest is visible, every object it lists is visible with the described bytes. */
  ghost predicate Committed(store: Store, prefix: string, sha: Bytes -> string)
  {
    Key(prefix, MANIFEST) in store ==>
      && store[Key(prefix, MANIFEST)].Document?
      && forall d :: d in store[Key(prefix, MANIFEST)].lists ==> Available(store, prefix, d, sha)
  }

  ghost predicate Available(store: Store, prefix: string, d: Descriptor, sha: Bytes -> string)
  {
    && Key(prefix, d.path) in store
    && store[Key(prefix, d.path)].Blob? && Matches(d, store[Key(prefix, d.path)].bytes, sha)
  }

  ghost predicate AllCommitted(trace: seq<Store>, prefix: string, sha: Bytes -> string)
  {
    forall st :: st in trace ==> Committed(st, prefix, sha)
  }

  lemma AllCommittedAppend(a: seq<Store>, b: seq<Store>, prefix: string, sha: Bytes -> string)
    ensures AllCommitted(a + b, prefix, sha) <==> AllCommitted(a, prefix, sha) && AllCommitted(b, prefix, sha)
  {
    hide Committed;
    if AllCommitted(a + b, prefix, sha) {
      assert forall st :: st in a || st in b ==> st in a + b;
    }
  }

  /** Everything in `before` is still there, unchanged. */
  ghost predicate Preserves(before: Store, after: Store)
  {
    forall k :: k in before ==> k in after && after[k] == before[k]
  }

  ghost predicate AllPreserve(before: Store, trace: seq<Store>)
  {
    forall st :: st in trace ==> Preserves(before, st)
  }

  ghost predicate Publishable(objects: seq<Object>, sha: Bytes -> string)
  {
    UniquePaths(objects) && WellDescribed(objects, sha)
  }

  // ---------- complete uploads ----------

  lemma {:induction false} UploadedAt(store: Store, prefix: string, objects: seq<Object>, n: nat, i: nat)
    requires UniquePaths(objects) && i < |objects| && n <= |objects|
    ensures i < n ==>
              && Key(prefix, objects[i].path) in Uploaded(store, prefix, objects, n)
              && Uploaded(store, prefix, objects, n)[Key(prefix, objects[i].path)] == objects[i].content
    ensures i >= n && Vacant(store, prefix, objects) ==> Key(prefix, objects[i].path) !in Uploaded(store, prefix, objects, n)
  {
    if n > 0 {
      UploadedAt(store, prefix, objects, n - 1, i);
      KeyInjective(prefix, objects[i].path, objects[n - 1].path);
      assert i < n - 1 ==> objects[i].path != objects[n - 1].path;
      assert i > n - 1 ==> objects[n - 1].path != objects[i].path;
    }
  }

  lemma {:induction false} UploadedPreserves(store: Store, prefix: string, objects: seq<Object>, n: nat)
    requires Vacant(store, prefix, objects) && n <= |objects|
    ensures Preserves(store, Uploaded(store, prefix, objects, n))
  {
    if n > 0 { UploadedPreserves(store, prefix, objects, n - 1); }
  }

  /** Only keys of the publication are added. */
  lemma {:induction false} UploadedKeys(store: Store, prefix: string, objects: seq<Object>, n: nat, key: string)
    requires n <= |objects|
    ensures key in Uploaded(store, prefix, objects, n) && key !in store ==> key in Keys(prefix, objects, n)
  {
    if n > 0 {
      UploadedKeys(store, prefix, objects, n - 1, key);
      var keys := Keys(prefix, objects, n);
      assert keys[..n - 1] == Keys(prefix, objects, n - 1);
      assert keys[n - 1] == Key(prefix, objects[n - 1].path);
    }
  }

  // ---------- every store of the upload ----------

  /** A reader may see this of the object while it is written, or afterwards if the write failed. */
  ghost predicate Glimpsed(fate: Fate, shown: Shown)
  {
    shown in fate.onTheWay || (fate.end.Left? && fate.end.shown == shown)
  }

  ghost function GlimpseAt(store: Store, prefix: string, objects: seq<Object>, n: nat, shown: Shown): Store
    requires n < |objects|
  {
    Uploaded(store, prefix, objects, n)[Key(prefix, objects[n].path) := Seen(objects[n].content, shown)]
  }

  ghost function AttemptAt(store: Store, prefix: string, objects: seq<Object>, w: World, n: nat): seq<Store>
    requires n < |objects|
  {
    Attempt(Uploaded(store, prefix, objects, n), Key(prefix, objects[n].path), objects[n].content, w.writes(n))
  }

  ghost predicate StoredBetween(w: World, i: nat, n: nat)
  {
    forall k :: i <= k < n ==> w.writes(k).end == Stored
  }

  /** What a failed write of object `f` leaves in the store. */
  ghost function Remains(store: Store, prefix: string, objects: seq<Object>, w: World, f: nat): Store
    requires f < |objects|
  {
    var end := w.writes(f).end;
    if end.Left? && !end.retracted then GlimpseAt(store, prefix, objects, f, end.shown) else Uploaded(store, prefix, objects, f)
  }

  /** The stores of a write: before it, after it, or with what a reader may see of the object. */
  lemma AttemptStates(store: Store, prefix: string, objects: seq<Object>, w: World, n: nat)
    requires UniquePaths(objects) && Vacant(store, prefix, objects) && n < |objects|
    ensures var base, next := Uploaded(store, prefix, objects, n), Uploaded(store, prefix, objects, n + 1);
            var step := AttemptAt(store, prefix, objects, w, n);
            && (forall st :: st in step ==>
                  st == base || st == next || exists shown :: Glimpsed(w.writes(n), shown) && st == GlimpseAt(store, prefix, objects, n, shown))
            && (forall shown :: Glimpsed(w.writes(n), shown) ==> GlimpseAt(store, prefix, objects, n, shown) in step)
            && Last(base, step) == (if w.writes(n).end == Stored then next else Remains(store, prefix, objects, w, n))
    ensures GlimpseAt(store, prefix, objects, n, Whole) == Uploaded(store, prefix, objects, n + 1)
  {
    hide UniquePaths, Vacant;
    var base, key, content := Uploaded(store, prefix, objects, n), Key(prefix, objects[n].path), objects[n].content;
    UploadedAt(store, prefix, objects, n, n);
    hide Uploaded, Key;
    GlimpseStates(base, key, content, w.writes(n));
  }

  lemma GlimpseStates(base: Store, key: string, content: Content, fate: Fate)
    requires key !in base
    ensures var step := Attempt(base, key, content, fate);
            && (forall st :: st in step ==>
                  st == base || st == base[key := content] || exists shown :: Glimpsed(fate, shown) && st == base[key := Seen(content, shown)])
            && (forall shown :: Glimpsed(fate, shown) ==> base[key := Seen(content, shown)] in step)
            && Last(base, step) == match fate.end
                                   case Stored => base[key := content]
                                   case Absent => base
                                   case Left(shown, retracted) => if retracted then base else base[key := Seen(content, shown)]
  {
    hide Seen;
    var glimpses, ending := Glimpses(base, key, content, fate.onTheWay), Ending(base, key, content, fate.end);
    if fate.end.Left? {
      assert base[key := Seen(content, fate.end.shown)] - {key} == base;
      assert ending[0] in ending;
    }
    forall shown | Glimpsed(fate, shown) ensures base[key := Seen(content, shown)] in glimpses + ending {
      if shown in fate.onTheWay {
        var i :| 0 <= i < |fate.onTheWay| && fate.onTheWay[i] == shown;
        assert glimpses[i] in glimpses;
      }
    }
    forall st | st in glimpses ensures exists shown :: Glimpsed(fate, shown) && st == base[key := Seen(content, shown)] {
      var i :| 0 <= i < |glimpses| && glimpses[i] == st;
      assert Glimpsed(fate, fate.onTheWay[i]);
    }
  }

  /** The upload passes through exactly the stores of the writes it reaches. */
  lemma {:induction false} UploadStates(store: Store, prefix: string, objects: seq<Object>, w: World, i: nat)
    requires UniquePaths(objects) && Vacant(store, prefix, objects) && i <= |objects|
    ensures var base := Uploaded(store, prefix, objects, i);
            var u := Uploads(base, prefix, objects, w, i);
            && (forall st :: st in u.trace <==>
                  exists n :: i <= n < |objects| && StoredBetween(w, i, n) && st in AttemptAt(store, prefix, objects, w, n))
            && (u.failed.None? ==>
                  StoredBetween(w, i, |objects|) && Last(base, u.trace) == Uploaded(store, prefix, objects, |objects|))
            && (u.failed.Some? ==>
                  var f := u.failed.value;
                  && StoredBetween(w, i, f) && w.writes(f).end != Stored
                  && Last(base, u.trace) == Remains(store, prefix, objects, w, f))
    decreases |objects| - i
  {
    hide Uploaded, Uploads, Attempt, Vacant, UniquePaths, Key, Remains, Glimpsed, GlimpseAt;
    var base := Uploaded(store, prefix, objects, i);
    if i == |objects| {
      NothingLeft(base, prefix, objects, w);
    } else {
      UploadsUnfold(base, prefix, objects, w, i);
      AttemptStates(store, prefix, objects, w, i);
      var step := AttemptAt(store, prefix, objects, w, i);
      if w.writes(i).end == Stored {
        UploadStates(store, prefix, objects, w, i + 1);
        var rest := Uploads(Uploaded(store, prefix, objects, i + 1), prefix, objects, w, i + 1);
        Extended(base, [], [], step);
        LastOfBoth(base, step, rest.trace);
        FirstOrLater(store, prefix, objects, w, i, step, rest.trace);
      }
    }
  }

  lemma LastOfBoth(base: Store, a: seq<Store>, b: seq<Store>)
    requires a != []
    ensures Last(base, a + b) == Last(Last(base, a), b)
  {
  }

  lemma FirstOrLater(store: Store, prefix: string, objects: seq<Object>, w: World, i: nat, step: seq<Store>, rest: seq<Store>)
    requires i < |objects| && w.writes(i).end == Stored && step == AttemptAt(store, prefix, objects, w, i)
    requires forall st :: st in rest <==>
               exists n :: i + 1 <= n < |objects| && StoredBetween(w, i + 1, n) && st in AttemptAt(store, prefix, objects, w, n)
    ensures forall st :: st in step + rest <==>
              exists n :: i <= n < |objects| && StoredBetween(w, i, n) && st in AttemptAt(store, prefix, objects, w, n)
  {
    hide AttemptAt;
    forall st
      ensures st in step + rest <==>
              exists n :: i <= n < |objects| && StoredBetween(w, i, n) && st in AttemptAt(store, prefix, objects, w, n)
    {
      if st in step {
        assert StoredBetween(w, i, i) && st in AttemptAt(store, prefix, objects, w, i);
      }
      if st in rest {
        var n :| i + 1 <= n < |objects| && StoredBetween(w, i + 1, n) && st in AttemptAt(store, prefix, objects, w, n);
        assert StoredBetween(w, i, n);
      }
      if n :| i <= n < |objects| && StoredBetween(w, i, n) && st in AttemptAt(store, prefix, objects, w, n) {
        assert n > i ==> StoredBetween(w, i + 1, n);
      }
    }
  }

  // ---------- the manifest comes last ----------

  /** A complete store holds every object of the publication. */
  ghost predicate Complete(store: Store, prefix: string, objects: seq<Object>)
  {
    forall i :: 0 <= i < |objects| ==> Key(prefix, objects[i].path) in store && store[Key(prefix, objects[i].path)] == objects[i].content
  }

  lemma CompleteIsCommitted(store: Store, prefix: string, objects: seq<Object>, sha: Bytes -> string)
    requires WellDescribed(objects, sha) && Complete(store, prefix, objects)
    ensures Committed(store, prefix, sha)
  {
    hide Matches;
    var last := |objects| - 1;
    forall d | d in objects[last].content.lists ensures Available(store, prefix, d, sha) {
      assert Delivered(objects[..last], d, sha);
      var i :| 0 <= i < last && objects[..last][i].path == d.path && objects[..last][i].content.Blob?
               && Matches(d, objects[..last][i].content.bytes, sha);
      assert objects[i] == objects[..last][i];
    }
  }

  lemma UploadedIsComplete(store: Store, prefix: string, objects: seq<Object>)
    requires UniquePaths(objects)
    ensures Complete(Uploaded(store, prefix, objects, |objects|), prefix, objects)
  {
    forall i | 0 <= i < |objects|
      ensures Key(prefix, objects[i].path) in Uploaded(store, prefix, objects, |objects|)
      ensures Uploaded(store, prefix, objects, |objects|)[Key(prefix, objects[i].path)] == objects[i].content
    {
      UploadedAt(store, prefix, objects, |objects|, i);
    }
  }

  /** Before its own write the manifest is not visible, whatever is visible of other objects. */
  lemma ManifestNotYet(store: Store, prefix: string, objects: seq<Object>, n: nat, shown: Shown)
    requires UniquePaths(objects) && objects != [] && objects[|objects| - 1].path == MANIFEST && Vacant(store, prefix, objects)
    requires n < |objects|
    ensures Key(prefix, MANIFEST) !in Uploaded(store, prefix, objects, n)
    ensures n < |objects| - 1 ==> Key(prefix, MANIFEST) !in GlimpseAt(store, prefix, objects, n, shown)
  {
    UploadedAt(store, prefix, objects, n, |objects| - 1);
    KeyInjective(prefix, objects[n].path, MANIFEST);
  }

  /** The write of an object other than the manifest keeps every store committed. */
  lemma DataWriteCommitted(store: Store, prefix: string, objects: seq<Object>, w: World, n: nat, sha: Bytes -> string)
    requires Publishable(objects, sha) && Vacant(store, prefix, objects) && n < |objects| - 1
    ensures AllCommitted(AttemptAt(store, prefix, objects, w, n), prefix, sha)
  {
    AttemptStates(store, prefix, objects, w, n);
    hide Uploaded, GlimpseAt, AttemptAt, Glimpsed;
    forall st | st in AttemptAt(store, prefix, objects, w, n) ensures Committed(st, prefix, sha) {
      ManifestNotYet(store, prefix, objects, n, Whole);
      ManifestNotYet(store, prefix, objects, n + 1, Whole);
      forall shown ensures Key(prefix, MANIFEST) !in GlimpseAt(store, prefix, objects, n, shown) {
        ManifestNotYet(store, prefix, objects, n, shown);
      }
    }
  }

  /** A reader could see bytes of the manifest that are not the manifest. */
  ghost predicate ShowsPart(fate: Fate)
  {
    exists shown :: Glimpsed(fate, shown) && shown != Whole
  }

  lemma ManifestWriteCommitted(store: Store, prefix: string, objects: seq<Object>, w: World, sha: Bytes -> string)
    requires Publishable(objects, sha) && Vacant(store, prefix, objects)
    ensures AllCommitted(AttemptAt(store, prefix, objects, w, |objects| - 1), prefix, sha) <==> !ShowsPart(w.writes(|objects| - 1))
  {
    var last := |objects| - 1;
    var step := AttemptAt(store, prefix, objects, w, last);
    AttemptStates(store, prefix, objects, w, last);
    ManifestNotYet(store, prefix, objects, last, Whole);
    UploadedIsComplete(store, prefix, objects);
    CompleteIsCommitted(Uploaded(store, prefix, objects, |objects|), prefix, objects, sha);
    forall bytes ensures !Committed(GlimpseAt(store, prefix, objects, last, Part(bytes)), prefix, sha) {
    }
    hide Uploaded, GlimpseAt, AttemptAt, Committed, Glimpsed;
    if shown :| Glimpsed(w.writes(last), shown) && shown != Whole {
      assert GlimpseAt(store, prefix, objects, last, Part(shown.bytes)) in step;
    } else {
      forall st | st in step ensures Committed(st, prefix, sha) {
        NotPart(w.writes(last));
        NoManifestCommitted(Uploaded(store, prefix, objects, last), prefix, sha);
      }
    }
  }

  lemma NotPart(fate: Fate)
    requires !ShowsPart(fate)
    ensures forall shown :: Glimpsed(fate, shown) ==> shown == Whole
  {
    hide Glimpsed;
  }

  lemma NoManifestCommitted(store: Store, prefix: string, sha: Bytes -> string)
    requires Key(prefix, MANIFEST) !in store
    ensures Committed(store, prefix, sha)
  {
  }

  /** The manifest is written, and a reader can see a part of it. */
  ghost predicate Torn(objects: seq<Object>, w: World)
    requires objects != []
  {
    StoredBetween(w, 0, |objects| - 1) && ShowsPart(w.writes(|objects| - 1))
  }

  lemma UploadCommitted(store: Store, prefix: string, objects: seq<Object>, w: World, sha: Bytes -> string)
    requires Publishable(objects, sha) && Vacant(store, prefix, objects)
    ensures AllCommitted(Uploads(store, prefix, objects, w, 0).trace, prefix, sha) <==> !Torn(objects, w)
  {
    hide Uploads, Committed, AttemptAt, ShowsPart, WellDescribed, Vacant, UniquePaths;
    UploadStates(store, prefix, objects, w, 0);
    StartUploaded(store, prefix, objects);
    DescribedNotEmpty(objects, sha);
    var last := |objects| - 1;
    ManifestWriteCommitted(store, prefix, objects, w, sha);
    forall n, st | 0 <= n < last && st in AttemptAt(store, prefix, objects, w, n) ensures Committed(st, prefix, sha) {
      DataWriteCommitted(store, prefix, objects, w, n, sha);
    }
    if Torn(objects, w) {
      var st :| st in AttemptAt(store, prefix, objects, w, last) && !Committed(st, prefix, sha);
      assert st in Uploads(store, prefix, objects, w, 0).trace;
    }
  }

  lemma DescribedNotEmpty(objects: seq<Object>, sha: Bytes -> string)
    requires WellDescribed(objects, sha)
    ensures objects != []
  {
  }

  lemma StartUploaded(store: Store, prefix: string, objects: seq<Object>)
    ensures Uploaded(store, prefix, objects, 0) == store
  {
  }

  // ---------- deleting again ----------

  ghost predicate DataKey(prefix: string, objects: seq<Object>, key: string)
  {
    exists i :: 0 <= i < |objects| - 1 && key == Key(prefix, objects[i].path)
  }

  /** The first granted delete of a published object deletes a data object, not the manifest. */
  ghost predicate Breaks(order: seq<string>, prefix: string, objects: seq<Object>, w: World)
  {
    if order == [] then false
    else if !w.deletes(order[0]) then Breaks(order[1..], prefix, objects, w)
    else if order[0] == Key(prefix, MANIFEST) then false
    else DataKey(prefix, objects, order[0]) || Breaks(order[1..], prefix, objects, w)
  }

  /** Deleting takes keys of `order` and nothing else. */
  lemma {:induction false} DeletionsShrink(store: Store, order: seq<string>, w: World)
    ensures forall st :: st in Deletions(store, order, w) ==>
              && (forall k :: k in st ==> k in store && st[k] == store[k])
              && (forall k :: k in store && k !in st ==> k in order)
  {
    if order != [] {
      var next := if w.deletes(order[0]) then store - {order[0]} else store;
      DeletionsShrink(next, order[1..], w);
      forall st | st in Deletions(store, order, w)
        ensures (forall k :: k in st ==> k in store && st[k] == store[k]) && (forall k :: k in store && k !in st ==> k in order)
      {
        assert st == next || st in Deletions(next, order[1..], w);
        assert forall k :: k in order[1..] ==> k in order;
        assert order[0] in order;
      }
    }
  }

  lemma DeletionsWithoutManifest(store: Store, order: seq<string>, prefix: string, w: World, sha: Bytes -> string)
    requires Key(prefix, MANIFEST) !in store
    ensures AllCommitted(Deletions(store, order, w), prefix, sha)
  {
    hide Deletions;
    DeletionsShrink(store, order, w);
  }

  /** From a complete store, deleting keeps the commit exactly if no data object goes before the manifest. */
  lemma {:induction false} DeletionsCommitted(store: Store, order: seq<string>, prefix: string, objects: seq<Object>, w: World, sha: Bytes -> string)
    requires Publishable(objects, sha) && ListsAll(objects) && Complete(store, prefix, objects)
    ensures AllCommitted(Deletions(store, order, w), prefix, sha) <==> !Breaks(order, prefix, objects, w)
  {
    hide Committed, WellDescribed, Complete, DataKey, UniquePaths, ListsAll;
    if order != [] {
      var next := if w.deletes(order[0]) then store - {order[0]} else store;
      var rest := Deletions(next, order[1..], w);
      AllCommittedAppend([next], rest, prefix, sha);
      if !w.deletes(order[0]) {
        CompleteIsCommitted(store, prefix, objects, sha);
        DeletionsCommitted(store, order[1..], prefix, objects, w, sha);
      } else if order[0] == Key(prefix, MANIFEST) {
        NoManifestCommitted(next, prefix, sha);
        DeletionsWithoutManifest(next, order[1..], prefix, w, sha);
      } else if DataKey(prefix, objects, order[0]) {
        DataDeleted(store, prefix, objects, order[0], sha);
        assert next in [next];
      } else {
        OtherDeleted(store, prefix, objects, order[0], sha);
        CompleteIsCommitted(next, prefix, objects, sha);
        DeletionsCommitted(next, order[1..], prefix, objects, w, sha);
      }
    }
  }

  lemma OtherDeleted(store: Store, prefix: string, objects: seq<Object>, key: string, sha: Bytes -> string)
    requires WellDescribed(objects, sha) && Complete(store, prefix, objects)
    requires key != Key(prefix, MANIFEST) && !DataKey(prefix, objects, key)
    ensures Complete(store - {key}, prefix, objects)
  {
    forall i | 0 <= i < |objects| ensures Key(prefix, objects[i].path) != key {
      assert i < |objects| - 1 || objects[i].path == MANIFEST;
    }
  }

  /** A manifest without one of its objects is not committed. */
  lemma DataDeleted(store: Store, prefix: string, objects: seq<Object>, key: string, sha: Bytes -> string)
    requires Publishable(objects, sha) && ListsAll(objects) && Complete(store, prefix, objects) && DataKey(prefix, objects, key)
    ensures !Committed(store - {key}, prefix, sha)
  {
    hide Matches;
    var last := |objects| - 1;
    var i :| 0 <= i < last && key == Key(prefix, objects[i].path);
    KeyInjective(prefix, objects[i].path, MANIFEST);
    var st, lists := store - {key}, objects[last].content.lists;
    assert Key(prefix, MANIFEST) in st && st[Key(prefix, MANIFEST)].lists == lists;
    assert Listed(lists, objects[i].path);
    var j :| 0 <= j < |lists| && lists[j].path == objects[i].path;
    assert lists[j] in lists && !Available(st, prefix, lists[j], sha);
  }

  // ---------- the commit property ----------

  /**
   How a run can show a manifest without its objects: a reader sees a part of the manifest, or its
   write fails with the whole manifest left behind and the cleanup deletes a data object first.
   */
  ghost predicate Dangles(objects: seq<Object>, prefix: string, w: World, order: seq<string>)
    requires objects != []
  {
    || Torn(objects, w)
    || (&& StoredBetween(w, 0, |objects| - 1) && w.writes(|objects| - 1).end == Left(Whole, false)
        && Breaks(order, prefix, objects, w))
  }

  lemma RunCommits(store: Store, prefix: string, objects: seq<Object>, w: World, order: seq<string>, sha: Bytes -> string)
    requires Publishable(objects, sha) && ListsAll(objects) && Vacant(store, prefix, objects)
    ensures AllCommitted(Run(store, prefix, objects, w, order).trace, prefix, sha) <==> !Dangles(objects, prefix, w, order)
  {
    hide Uploads, Deletions, Uploaded, Committed, WellDescribed, Remains, Breaks, ShowsPart, AttemptAt, UniquePaths;
    var u := Uploads(store, prefix, objects, w, 0);
    DescribedNotEmpty(objects, sha);
    StartUploaded(store, prefix, objects);
    UploadStates(store, prefix, objects, w, 0);
    UploadCommitted(store, prefix, objects, w, sha);
    ManifestAbsent(store, prefix, objects, sha);
    AllCommittedAppend([store], u.trace, prefix, sha);
    if u.failed.Some? {
      var mid := Last(store, u.trace);
      AllCommittedAppend([store] + u.trace, Deletions(mid, order, w), prefix, sha);
      FailedRunCommits(store, prefix, objects, w, order, u.failed.value, sha);
    } else {
      assert w.writes(|objects| - 1).end == Stored;
    }
  }

  lemma ManifestAbsent(store: Store, prefix: string, objects: seq<Object>, sha: Bytes -> string)
    requires Publishable(objects, sha) && Vacant(store, prefix, objects)
    ensures AllCommitted([store], prefix, sha)
  {
    assert objects[|objects| - 1].path == MANIFEST;
  }

  /** The deletes after a failed write of object `f`, unless a part of the manifest was seen before. */
  lemma FailedRunCommits(store: Store, prefix: string, objects: seq<Object>, w: World, order: seq<string>, f: nat, sha: Bytes -> string)
    requires Publishable(objects, sha) && ListsAll(objects) && Vacant(store, prefix, objects)
    requires f < |objects| && StoredBetween(w, 0, f) && w.writes(f).end != Stored
    ensures !Torn(objects, w) ==>
              (AllCommitted(Deletions(Remains(store, prefix, objects, w, f), order, w), prefix, sha) <==> !Dangles(objects, prefix, w, order))
  {
    hide Deletions, Uploaded, Committed, WellDescribed, Breaks, Glimpsed, GlimpseAt;
    var last := |objects| - 1;
    var mid, end := Remains(store, prefix, objects, w, f), w.writes(f).end;
    ManifestIsLast(objects, sha);
    ManifestNotYet(store, prefix, objects, f, if end.Left? then end.shown else Whole);
    if Key(prefix, MANIFEST) !in mid {
      DeletionsWithoutManifest(mid, order, prefix, w, sha);
    }
    if f == last && end.Left? && !end.retracted && !Torn(objects, w) {
      LeftWhole(w.writes(last));
      AttemptStates(store, prefix, objects, w, last);
      UploadedIsComplete(store, prefix, objects);
      DeletionsCommitted(mid, order, prefix, objects, w, sha);
    } else if f == last && !(end.Left? && !end.retracted) {
      assert end != Left(Whole, false);
    }
  }

  lemma ManifestIsLast(objects: seq<Object>, sha: Bytes -> string)
    requires WellDescribed(objects, sha)
    ensures objects != [] && objects[|objects| - 1].path == MANIFEST
  {
  }

  lemma LeftWhole(fate: Fate)
    requires !ShowsPart(fate) && fate.end.Left?
    ensures fate.end.shown == Whole
  {
    NotPart(fate);
    assert Glimpsed(fate, fate.end.shown);
  }

  /** When an object-store publication shows a manifest without its objects. */
  ghost predicate ObjectStoreDangles(objects: seq<Object>, prefix: string, w: World)
    requires objects != []
  {
    var last := |objects| - 1;
    && StoredBetween(w, 0, last)
    && (|| ShowsPart(w.writes(last))
        || (w.writes(last).end == Left(Whole, false) && exists i :: 0 <= i < last && w.deletes(Key(prefix, objects[i].path))))
  }

  /**
   A visible manifest always has all its objects, in every store of the run, if and only if no reader
   can see a part of the manifest, and the manifest's own write does not fail leaving it whole, with
   its retraction refused and a cleanup delete granted.
   */
  lemma ManifestCommits(store: Store, prefix: string, objects: seq<Object>, w: World, sha: Bytes -> string)
    requires Publishable(objects, sha) && ListsAll(objects) && Vacant(store, prefix, objects)
    ensures AllCommitted(PublishRun(store, prefix, objects, w).trace, prefix, sha) <==> !ObjectStoreDangles(objects, prefix, w)
  {
    hide Run, Uploads, Breaks, ShowsPart, Committed;
    var order := CleanupOrder(store, prefix, objects, w);
    RunCommits(store, prefix, objects, w, order, sha);
    var last := |objects| - 1;
    if StoredBetween(w, 0, last) && w.writes(last).end == Left(Whole, false) {
      FailsAt(store, prefix, objects, w, last);
      assert order == Backwards(Keys(prefix, objects, last));
      DataDeletesBreak(order, prefix, objects, w);
      forall i | 0 <= i < last ensures Key(prefix, objects[i].path) in order {
        assert Keys(prefix, objects, last)[i] == Key(prefix, objects[i].path);
      }
    }
  }

  /** The cleanup after a failed write of object `f` deletes the keys of the earlier objects, last first. */
  lemma CleanupLastFirst(store: Store, prefix: string, objects: seq<Object>, w: World, f: nat)
    requires UniquePaths(objects) && Vacant(store, prefix, objects) && f < |objects|
    requires (forall k :: 0 <= k < f ==> w.writes(k).end == Stored) && w.writes(f).end != Stored
    ensures var order := CleanupOrder(store, prefix, objects, w);
            |order| == f && forall i :: 0 <= i < f ==> order[i] == prefix + "/" + objects[f - 1 - i].path
  {
    hide Uploads;
    FailsAt(store, prefix, objects, w, f);
    forall i | 0 <= i < f ensures CleanupOrder(store, prefix, objects, w)[i] == prefix + "/" + objects[f - 1 - i].path {
      BackwardsAt(Keys(prefix, objects, f), i);
    }
  }

  lemma FailsAt(store: Store, prefix: string, objects: seq<Object>, w: World, f: nat)
    requires UniquePaths(objects) && Vacant(store, prefix, objects) && f < |objects|
    requires StoredBetween(w, 0, f) && w.writes(f).end != Stored
    ensures Uploads(store, prefix, objects, w, 0).failed == Some(f)
  {
    hide Uploads, AttemptAt, Remains;
    UploadStates(store, prefix, objects, w, 0);
    StartUploaded(store, prefix, objects);
  }

  /** If only data objects are deleted, any granted delete breaks the commit. */
  lemma {:induction false} DataDeletesBreak(order: seq<string>, prefix: string, objects: seq<Object>, w: World)
    requires UniquePaths(objects) && objects != [] && objects[|objects| - 1].path == MANIFEST
    requires forall k :: k in order ==> DataKey(prefix, objects, k)
    ensures Breaks(order, prefix, objects, w) <==> exists k :: k in order && w.deletes(k)
  {
    if order != [] {
      var rest := order[1..];
      assert order[0] in order;
      assert forall k :: k in order <==> k == order[0] || k in rest;
      DataDeletesBreak(rest, prefix, objects, w);
      var i :| 0 <= i < |objects| - 1 && order[0] == Key(prefix, objects[i].path);
      KeyInjective(prefix, objects[i].path, MANIFEST);
    }
  }

  /** A world in which the second write leaves `shown` behind, its retraction is refused, and cleanup works or not. */
  ghost function SecondWriteLeaves(shown: Shown, cleanup: bool): World
  {
    World((i: nat) => Fate([], if i == 1 then Left(shown, false) else Stored), (_: string) => cleanup, true, [])
  }

  /**
   The failing cases exist, with one data object: the whole manifest is left and cleanup deletes its
   object, or a part of the manifest is left and cleanup deletes nothing.
   */
  lemma DanglingExamples(sha: Bytes -> string)
    ensures var objects := [Object("a", Blob([])), Object(MANIFEST, Document([Describe("a", [], sha)]))];
            && Publishable(objects, sha) && ListsAll(objects)
            && !AllCommitted(PublishRun(map[], "p", objects, SecondWriteLeaves(Whole, true)).trace, "p", sha)
            && !AllCommitted(PublishRun(map[], "p", objects, SecondWriteLeaves(Part([]), false)).trace, "p", sha)
  {
    var d := Describe("a", [], sha);
    var objects := [Object("a", Blob([])), Object(MANIFEST, Document([d]))];
    assert objects[..1] == [objects[0]];
    assert Delivered(objects[..1], d, sha) by { assert objects[..1][0].path == d.path; }
    assert Listed([d], "a") by { assert [d][0].path == "a"; }
    assert |"a"| != |MANIFEST|;
    hide PublishRun, AllCommitted;
    var w1, w2 := SecondWriteLeaves(Whole, true), SecondWriteLeaves(Part([]), false);
    ManifestCommits(map[], "p", objects, w1, sha);
    assert w1.deletes(Key("p", objects[0].path));
    ManifestCommits(map[], "p", objects, w2, sha);
    assert Glimpsed(w2.writes(1), Part([]));
  }

  /** A write either stores the whole object at once or leaves nothing. */
  ghost predicate Atomic(fate: Fate)
  {
    fate.onTheWay == [] && !fate.end.Left?
  }

  /** With atomic writes a visible manifest is always complete, whichever writes and deletes fail. */
  lemma AtomicWritesCommit(store: Store, prefix: string, objects: seq<Object>, w: World, sha: Bytes -> string)
    requires Publishable(objects, sha) && ListsAll(objects) && Vacant(store, prefix, objects)
    requires forall i :: 0 <= i < |objects| ==> Atomic(w.writes(i))
    ensures AllCommitted(PublishRun(store, prefix, objects, w).trace, prefix, sha)
  {
    hide PublishRun;
    ManifestCommits(store, prefix, objects, w, sha);
    DescribedNotEmpty(objects, sha);
    assert Atomic(w.writes(|objects| - 1));
  }

  // ---------- what was there before ----------

  lemma RunPreserves(store: Store, prefix: string, objects: seq<Object>, w: World, order: seq<string>)
    requires UniquePaths(objects) && Vacant(store, prefix, objects) && forall k :: k in order ==> k !in store
    ensures AllPreserve(store, Run(store, prefix, objects, w, order).trace)
  {
    hide Uploads, Deletions, Uploaded, AttemptAt, Remains, Preserves, UniquePaths;
    var u := Uploads(store, prefix, objects, w, 0);
    StartUploaded(store, prefix, objects);
    UploadStates(store, prefix, objects, w, 0);
    UploadedPreserves(store, prefix, objects, 0);
    forall n, st | 0 <= n < |objects| && st in AttemptAt(store, prefix, objects, w, n) ensures Preserves(store, st) {
      AttemptPreserves(store, prefix, objects, w, n);
    }
    var mid := Last(store, u.trace);
    assert u.trace != [] ==> mid in u.trace;
    DeletionsPreserve(store, mid, order, w);
  }

  lemma AttemptPreserves(store: Store, prefix: string, objects: seq<Object>, w: World, n: nat)
    requires UniquePaths(objects) && Vacant(store, prefix, objects) && n < |objects|
    ensures AllPreserve(store, AttemptAt(store, prefix, objects, w, n))
  {
    AttemptStates(store, prefix, objects, w, n);
    hide AttemptAt, Uploaded, Glimpsed;
    UploadedPreserves(store, prefix, objects, n);
    UploadedPreserves(store, prefix, objects, n + 1);
    forall shown ensures Preserves(store, GlimpseAt(store, prefix, objects, n, shown)) {
    }
  }

  lemma DeletionsPreserve(store: Store, mid: Store, order: seq<string>, w: World)
    requires Preserves(store, mid) && forall k :: k in order ==> k !in store
    ensures AllPreserve(store, Deletions(mid, order, w))
  {
    hide Deletions;
    DeletionsShrink(mid, order, w);
  }

  /** No store of any run has lost or changed an object that was there before. */
  lemma ExistingObjectsUntouched(store: Store, prefix: string, objects: seq<Object>, w: World)
    requires UniquePaths(objects)
    ensures AllPreserve(store, PublishRun(store, prefix, objects, w).trace)
  {
    hide Run, Uploads;
    if Vacant(store, prefix, objects) {
      RunPreserves(store, prefix, objects, w, CleanupOrder(store, prefix, objects, w));
    }
  }

  /** Deleting everything that was added leads back. */
  lemma {:induction false} DeletionsRestore(store: Store, mid: Store, order: seq<string>, w: World)
    requires Preserves(store, mid)
    requires forall k :: k in order ==> k !in store && w.deletes(k)
    requires forall k :: k in mid && k !in store ==> k in order
    ensures Last(mid, Deletions(mid, order, w)) == store
  {
    if order == [] {
      assert mid == store;
    } else {
      assert order[0] in order;
      assert forall k :: k in order[1..] ==> k in order;
      assert forall k :: k in order ==> k == order[0] || k in order[1..];
      var next := mid - {order[0]};
      DeletionsRestore(store, next, order[1..], w);
      LastOfBoth(mid, [next], Deletions(next, order[1..], w));
    }
  }

  lemma RunRestores(store: Store, prefix: string, objects: seq<Object>, w: World, order: seq<string>)
    requires UniquePaths(objects) && Vacant(store, prefix, objects) && !Run(store, prefix, objects, w, order).published
    requires forall k :: k in order ==> k !in store && w.deletes(k)
    requires var f := Uploads(store, prefix, objects, w, 0).failed;
             f.Some? ==> forall k :: k in Remains(store, prefix, objects, w, f.value) && k !in store ==> k in order
    ensures var r := Run(store, prefix, objects, w, order); r.trace[|r.trace| - 1] == store
  {
    hide Uploads, Deletions, Uploaded, AttemptAt, Remains;
    var u := Uploads(store, prefix, objects, w, 0);
    StartUploaded(store, prefix, objects);
    UploadStates(store, prefix, objects, w, 0);
    RunPreserves(store, prefix, objects, w, order);
    var mid := Last(store, u.trace);
    assert mid in Run(store, prefix, objects, w, order).trace;
    DeletionsRestore(store, mid, order, w);
  }

  /** A failed run whose deletes succeed ends with exactly the stored objects it began with. */
  lemma FailureRestores(store: Store, prefix: string, objects: seq<Object>, w: World)
    requires UniquePaths(objects) && !PublishRun(store, prefix, objects, w).published
    requires forall i :: 0 <= i < |objects| ==> w.deletes(Key(prefix, objects[i].path))
    requires forall i :: 0 <= i < |objects| && w.writes(i).end.Left? ==> w.writes(i).end.retracted
    ensures var r := PublishRun(store, prefix, objects, w); r.trace[|r.trace| - 1] == store
  {
    if Vacant(store, prefix, objects) {
      hide Run, Uploads, Uploaded, Vacant;
      var order := CleanupOrder(store, prefix, objects, w);
      var f := Uploads(store, prefix, objects, w, 0).failed;
      if f.Some? {
        CleanupKeys(store, prefix, objects, f.value, w);
        forall k | k in Remains(store, prefix, objects, w, f.value) && k !in store ensures k in order {
          UploadedKeys(store, prefix, objects, f.value, k);
        }
      }
      RunRestores(store, prefix, objects, w, order);
    }
  }

  lemma CleanupKeys(store: Store, prefix: string, objects: seq<Object>, f: nat, w: World)
    requires Vacant(store, prefix, objects) && f <= |objects|
    requires forall i :: 0 <= i < |objects| ==> w.deletes(Key(prefix, objects[i].path))
    ensures forall k :: k in Backwards(Keys(prefix, objects, f)) ==> k !in store && w.deletes(k)
  {
  }

  /** A successful run ends with the objects added, manifest included, and nothing else. */
  lemma SuccessPublishes(store: Store, prefix: string, objects: seq<Object>, w: World)
    requires UniquePaths(objects) && PublishRun(store, prefix, objects, w).published
    ensures var r := PublishRun(store, prefix, objects, w);
            var final := r.trace[|r.trace| - 1];
            final == Uploaded(store, prefix, objects, |objects|) && Complete(final, prefix, objects)
  {
    hide Run, Uploaded, Complete, Uploads;
    RunCompletes(store, prefix, objects, w, CleanupOrder(store, prefix, objects, w));
  }

  lemma RunCompletes(store: Store, prefix: string, objects: seq<Object>, w: World, order: seq<string>)
    requires UniquePaths(objects) && Vacant(store, prefix, objects) && Run(store, prefix, objects, w, order).published
    ensures var r := Run(store, prefix, objects, w, order);
            var final := r.trace[|r.trace| - 1];
            final == Uploaded(store, prefix, objects, |objects|) && Complete(final, prefix, objects)
  {
    hide Uploads, Uploaded, AttemptAt, Remains;
    StartUploaded(store, prefix, objects);
    UploadStates(store, prefix, objects, w, 0);
    UploadedIsComplete(store, prefix, objects);
  }

  /**
   `publish` to an object store. Whatever fails, every store passed through keeps what was there, and
   with atomic writes and no manifest in place before, a visible manifest is complete.
   */
  method PublishIndex(writer: S3Writer, inputs: Inputs, sha: Bytes -> string, safe: string -> bool, w: World)
    returns (r: Result<(), string>, ghost objects: seq<Object>)
    requires writer.written == [] && writer.trace == [writer.store]
    modifies writer
    ensures ObjectsOf(objects, inputs, sha, safe)
    ensures if objects == [] then r.Err? && writer.trace == [old(writer.store)]
            else Outcome(writer.trace, r.Ok?) == PublishRun(old(writer.store), writer.prefix, objects, w)
    ensures AllPreserve(old(writer.store), writer.trace)
    ensures Key(writer.prefix, MANIFEST) !in old(writer.store) && (forall i :: Atomic(w.writes(i))) ==>
              AllCommitted(writer.trace, writer.prefix, sha)
    ensures r.Ok? ==> Key(writer.prefix, MANIFEST) in writer.store
                      && writer.store[Key(writer.prefix, MANIFEST)] == Document(Announced(inputs, sha))
  {
    hide PublishRun, Committed, WellDescribed, ListsAll, Announced, DataObjects, InputsOk, Preserves, Vacant, UniqueListing, SamePaths;
    objects := [];
    Untouched(writer.store, writer.prefix, sha);
    var found := PublicationObjects(inputs, sha, safe);
    if found.Err? { return Err(found.error), objects; }
    UniqueAsListed(found.value, Announced(inputs, sha));
    var unique := EnsureUniquePaths(found.value);
    if !unique { return Err("duplicate publication path"), objects; }
    objects := found.value;
    ghost var store, prefix := writer.store, writer.prefix;
    var published := writer.PublishObjects(found.value, w);
    ExistingObjectsUntouched(store, prefix, objects, w);
    PublishedCommits(store, prefix, objects, w, sha);
    ManifestIsLast(objects, sha);
    if !published { return Err("publication failed"), objects; }
    SuccessPublishes(store, prefix, objects, w);
    return Ok(()), objects;
  }

  /** The objects a publication uploads: none if its inputs are rejected, otherwise those its manifest announces. */
  ghost predicate ObjectsOf(objects: seq<Object>, inputs: Inputs, sha: Bytes -> string, safe: string -> bool)
  {
    && (objects != [] <==> InputsOk(inputs, sha, safe) && UniqueListing(Announced(inputs, sha)))
    && (objects != [] ==>
          objects == Publication(inputs, sha) && Publishable(objects, sha) && ListsAll(objects) && SamePaths(objects, Announced(inputs, sha)))
  }

  lemma Untouched(store: Store, prefix: string, sha: Bytes -> string)
    ensures AllPreserve(store, [store])
    ensures Key(prefix, MANIFEST) !in store ==> AllCommitted([store], prefix, sha)
  {
  }

  lemma PublishedCommits(store: Store, prefix: string, objects: seq<Object>, w: World, sha: Bytes -> string)
    requires Publishable(objects, sha) && ListsAll(objects)
    ensures Key(prefix, MANIFEST) !in store && (forall i :: Atomic(w.writes(i))) ==>
              AllCommitted(PublishRun(store, prefix, objects, w).trace, prefix, sha)
  {
    if Vacant(store, prefix, objects) {
      if forall i :: Atomic(w.writes(i)) { AtomicWritesCommit(store, prefix, objects, w, sha); }
    } else {
      Untouched(store, prefix, sha);
    }
  }

  // ---------- the local directory ----------

  /**
   `publish` to a local directory: what was stored stays, the commit property holds exactly as for the
   uploaded objects, and success means that the announced manifest is stored.
   */
  method PublishIndexLocally(writer: LocalWriter, inputs: Inputs, sha: Bytes -> string, safe: string -> bool, w: World)
    returns (r: Result<(), string>, ghost objects: seq<Object>)
    requires writer.trace == [writer.store] && !writer.created
    requires forall i :: w.writes(i).end.Left? ==> !w.writes(i).end.retracted
    requires forall k :: k in w.sweep ==> UnderRoot(writer.root, k)
    modifies writer
    ensures ObjectsOf(objects, inputs, sha, safe)
    ensures if objects == [] then r.Err? && writer.trace == [old(writer.store)]
            else Outcome(writer.trace, r.Ok?) == LocalRun(old(writer.store), old(writer.bare), writer.root, objects, w)
    ensures AllPreserve(old(writer.store), writer.trace)
    ensures objects != [] && !PathExists(old(writer.store), old(writer.bare), writer.root) && w.mkdir ==>
              (AllCommitted(writer.trace, writer.root, sha) <==> !Dangles(objects, writer.root, w, w.sweep))
    ensures r.Ok? ==> Key(writer.root, MANIFEST) in writer.store
                      && writer.store[Key(writer.root, MANIFEST)] == Document(Announced(inputs, sha))
  {
    hide LocalRun, Committed, WellDescribed, ListsAll, Announced, DataObjects, InputsOk, Preserves, PathExists, Dangles, UniqueListing, SamePaths;
    objects := [];
    Untouched(writer.store, writer.root, sha);
    var found := PublicationObjects(inputs, sha, safe);
    if found.Err? { return Err(found.error), objects; }
    UniqueAsListed(found.value, Announced(inputs, sha));
    var unique := EnsureUniquePaths(found.value);
    if !unique { return Err("duplicate publication path"), objects; }
    objects := found.value;
    ghost var store, bare, root := writer.store, writer.bare, writer.root;
    var published := writer.PublishObjects(found.value, w);
    LocalOutsideUntouched(store, bare, root, objects, w);
    LocalOutcome(store, bare, root, objects, w, sha);
    ManifestIsLast(objects, sha);
    if !published { return Err("publication failed"), objects; }
    return Ok(()), objects;
  }

  /** How a local publication of checked objects ends. */
  lemma LocalOutcome(store: Store, bare: set<string>, root: string, objects: seq<Object>, w: World, sha: Bytes -> string)
    requires Publishable(objects, sha) && ListsAll(objects)
    ensures !PathExists(store, bare, root) && w.mkdir ==>
              (AllCommitted(LocalRun(store, bare, root, objects, w).trace, root, sha) <==> !Dangles(objects, root, w, w.sweep))
    ensures PathExists(store, bare, root) || !w.mkdir ==> LocalRun(store, bare, root, objects, w) == Outcome([store], false)
    ensures var r := LocalRun(store, bare, root, objects, w);
            r.published ==> Complete(r.trace[|r.trace| - 1], root, objects)
  {
    hide Run, PathExists, Dangles, Committed, Complete;
    if !PathExists(store, bare, root) && w.mkdir {
      LocalManifestCommits(store, bare, root, objects, w, sha);
      FreshRootIsVacant(store, bare, root, objects);
      if Run(store, root, objects, w, w.sweep).published { RunCompletes(store, root, objects, w, w.sweep); }
    }
  }

  /** Nothing is stored below a path that does not exist. */
  lemma FreshRootIsVacant(store: Store, bare: set<string>, root: string, objects: seq<Object>)
    requires !PathExists(store, bare, root)
    ensures forall k :: k in store ==> !UnderRoot(root, k)
    ensures Vacant(store, root, objects)
  {
    forall i | 0 <= i < |objects| ensures !PathExists(store, {}, Key(root, objects[i].path)) {
      var key := Key(root, objects[i].path);
      assert key == root + "/" + objects[i].path && UnderRoot(root, key);
      forall k | UnderRoot(key, k) ensures UnderRoot(root, k) {
        assert root + "/" <= key + "/" <= k;
      }
    }
  }

  /**
   The commit property of a local publication: it holds in every store of the run if and only if no
   reader can see a part of the manifest, and no failed manifest write leaves it whole to a cleanup
   that deletes a data object before it.
   */
  lemma LocalManifestCommits(store: Store, bare: set<string>, root: string, objects: seq<Object>, w: World, sha: Bytes -> string)
    requires Publishable(objects, sha) && ListsAll(objects) && !PathExists(store, bare, root) && w.mkdir
    ensures AllCommitted(LocalRun(store, bare, root, objects, w).trace, root, sha) <==> !Dangles(objects, root, w, w.sweep)
  {
    hide Run, PathExists;
    FreshRootIsVacant(store, bare, root, objects);
    RunCommits(store, root, objects, w, w.sweep, sha);
  }

  /** A local run never touches anything that was stored before, if cleanup stays in its directory. */
  lemma LocalOutsideUntouched(store: Store, bare: set<string>, root: string, objects: seq<Object>, w: World)
    requires UniquePaths(objects) && forall k :: k in w.sweep ==> UnderRoot(root, k)
    ensures AllPreserve(store, LocalRun(store, bare, root, objects, w).trace)
  {
    hide Run, PathExists;
    if !PathExists(store, bare, root) {
      FreshRootIsVacant(store, bare, root, objects);
      RunPreserves(store, root, objects, w, w.sweep);
    }
  }

  /** A failed local run whose cleanup deletes its whole directory leaves the store as it was. */
  lemma LocalFailureRestores(store: Store, bare: set<string>, root: string, objects: seq<Object>, w: World)
    requires UniquePaths(objects) && !LocalRun(store, bare, root, objects, w).published
    requires forall k :: k in w.sweep ==> UnderRoot(root, k) && w.deletes(k)
    requires forall i :: 0 <= i < |objects| ==> Key(root, objects[i].path) in w.sweep
    ensures var r := LocalRun(store, bare, root, objects, w); r.trace[|r.trace| - 1] == store
  {
    if !PathExists(store, bare, root) && w.mkdir {
      hide Run, Uploads, Uploaded, Vacant, PathExists;
      FreshRootIsVacant(store, bare, root, objects);
      var f := Uploads(store, root, objects, w, 0).failed;
      if f.Some? {
        forall k | k in Remains(store, root, objects, w, f.value) && k !in store ensures k in w.sweep {
          UploadedKeys(store, root, objects, f.value, k);
        }
      }
      RunRestores(store, root, objects, w, w.sweep);
    }
  }
}
