/**
 * The page state of the annotation tool and the handlers that change it: the
 * sequences found so far and their order, the cursor on the current sequence,
 * its point list, the occluded and category modes, and the browser store of
 * point lists. Drawing, alerts and the zoom widgets are not part of the model.
 */
module Session {
  import opened Common
  import opened Names
  import opened Grouping
  import opened Annotations
  import opened Exchange
  import opened Navigation

  /** The outcome of a click on one of the two images. */
  datatype Placement = Placed(point: Point) | Rejected(reason: Rejection)

  /** The image a click lands on: the left canvas (slot 0) shows the second image of the pair, the right one the first. */
  function ImageForSlot(pair: seq<string>, slot: nat): (img: string)
    requires |pair| == 2
    ensures img in pair
    ensures slot == 0 ==> img == pair[1]
    ensures slot != 0 ==> img == pair[0]
  {
    if slot == 0 then pair[1] else pair[0]
  }

  /**
   * The first loop of `groupImagesIntoSequences`: every name with an
   * underscore is filed under its key; `keyOrder` records the keys in the
   * order the object's own properties are enumerated.
   */
  method FileByKey(imageNames: seq<string>) returns (prefixMap: map<string, seq<string>>, keyOrder: seq<string>)
    ensures prefixMap == PrefixMap(imageNames)
    ensures keyOrder == Discovered(imageNames)
  {
    prefixMap := map[];
    keyOrder := [];
    ghost var done: seq<string> := [];
    FileNothing();
    var i := 0;
    while i < |imageNames|
      invariant 0 <= i <= |imageNames|
      invariant done == imageNames[..i]
      invariant prefixMap == PrefixMap(done)
      invariant keyOrder == Discovered(done)
    {
      var name := imageNames[i];
      assert imageNames[..i + 1] == done + [name];
      ghost var before, keysBefore := prefixMap, keyOrder;
      if HasKey(name) {
        var key := GroupKey(name);
        if key in prefixMap {
          prefixMap := prefixMap[key := prefixMap[key] + [name]];
        } else {
          prefixMap := prefixMap[key := [name]];
          keyOrder := keyOrder + [key];
        }
      }
      FileStep(done, name, before, keysBefore, prefixMap, keyOrder);
      done := done + [name];
      i := i + 1;
    }
    assert done == imageNames;
  }

  /** One visit of the second loop: a group of exactly two names becomes the sorted pair of its key. */
  method AddOne(seqs: map<string, seq<string>>, order: seq<string>, key: string, group: seq<string>)
    returns (seqs': map<string, seq<string>>, order': seq<string>)
    ensures seqs' == if |group| == 2 then seqs[key := SortPair(group)] else seqs
    ensures order' == if |group| == 2 && key !in seqs then order + [key] else order
  {
    seqs', order' := seqs, order;
    if |group| == 2 {
      if key !in seqs {
        order' := order + [key];
      }
      seqs' := seqs[key := SortPair(group)];
    }
  }

  /**
   * The second loop of `groupImagesIntoSequences`: visiting the keys in
   * order, every group of exactly two names becomes the sorted pair of its
   * key; a key not yet known is appended to the order.
   */
  method AddPairs(sequences: map<string, seq<string>>, sequenceNames: seq<string>, imageNames: seq<string>,
                  prefixMap: map<string, seq<string>>, keyOrder: seq<string>)
    returns (seqs: map<string, seq<string>>, order: seq<string>)
    requires Distinct(keyOrder)
    requires forall k | k in keyOrder :: k in prefixMap && prefixMap[k] == Group(imageNames, k)
    ensures seqs == sequences + PairsAmong(keyOrder, imageNames)
    ensures order == sequenceNames + NewNames(keyOrder, imageNames, sequences.Keys)
  {
    seqs, order := sequences, sequenceNames;
    ghost var visited: seq<string> := [];
    AddNothing(sequences, sequenceNames, imageNames);
    var j := 0;
    while j < |keyOrder|
      invariant 0 <= j <= |keyOrder| && |visited| == j
      invariant forall i :: 0 <= i < j ==> visited[i] == keyOrder[i]
      invariant seqs == sequences + PairsAmong(visited, imageNames)
      invariant order == sequenceNames + NewNames(visited, imageNames, sequences.Keys)
    {
      var key := keyOrder[j];
      assert prefixMap[key] == Group(imageNames, key);
      ghost var seqsBefore, orderBefore := seqs, order;
      seqs, order := AddOne(seqs, order, key, prefixMap[key]);
      AddStep(sequences, sequenceNames, keyOrder, j, visited, imageNames, seqsBefore, orderBefore, seqs, order);
      visited := visited + [key];
      j := j + 1;
    }
    assert visited == keyOrder;
  }

  /**
   * The loop of the annotation-file handler: visiting the entries in any
   * order, each entry with a `points` field overwrites the stored list of
   * its name.
   */
  method ImportEntries(store: Store, doc: Document) returns (after: Store)
    ensures after == ImportStore(store, doc)
  {
    after := store;
    ghost var seen: Document := map[];
    var rest := doc.Keys;
    while rest != {}
      invariant rest <= doc.Keys
      invariant forall k :: k in seen <==> k in doc && k !in rest
      invariant forall k | k in seen :: seen[k] == doc[k]
      invariant after == ImportStore(store, seen)
      decreases |rest|
    {
      var k :| k in rest;
      ImportOne(store, seen, k, doc[k]);
      if doc[k].points.Some? {
        after := after[k := doc[k].points.value];
      }
      seen := seen[k := doc[k]];
      rest := rest - {k};
    }
    MapExt(seen, doc);
  }

  class Session {
    /** Sequence name to its pair of image names, sorted. */
    var sequences: map<string, seq<string>>
    /** The sequence names, in the order they were first added. */
    var sequenceNames: seq<string>
    var currentSequenceIndex: nat
    /** The points of the current sequence. */
    var points: seq<Point>
    /** The next placed point is marked occluded. */
    var occludedMode: bool
    var currentCategory: Category
    /** The browser store: point lists by sequence name. */
    var store: Store

    /** `sequenceNames` lists the keys of `sequences` once each, every sequence is a pair, and the cursor is in range. */
    ghost predicate Valid()
      reads this
    {
      && (forall k :: k in sequences <==> k in sequenceNames)
      && Distinct(sequenceNames)
      && (forall k | k in sequences :: |sequences[k]| == 2)
      && (if |sequenceNames| == 0 then currentSequenceIndex == 0 else currentSequenceIndex < |sequenceNames|)
    }

    /** There is a current sequence. */
    predicate HasCurrent()
      reads this
    {
      currentSequenceIndex < |sequenceNames|
    }

    /**
     * The name the store is addressed with: the current sequence, or the text
     * `undefined` that an out-of-range `sequenceNames[i]` turns into.
     */
    function CurrentName(): (name: string)
      reads this
      ensures HasCurrent() ==> name == sequenceNames[currentSequenceIndex]
      ensures !HasCurrent() ==> name == "undefined"
    {
      if HasCurrent() then sequenceNames[currentSequenceIndex] else "undefined"
    }

    /** The image pair of the current sequence. */
    function CurrentPair(): (pair: seq<string>)
      requires Valid() && HasCurrent()
      reads this
      ensures |pair| == 2
      ensures pair == sequences[CurrentName()]
    {
      sequences[sequenceNames[currentSequenceIndex]]
    }

    /** A fresh page: nothing grouped, no points, index mode; the store survives from earlier visits. */
    constructor (saved: Store)
      ensures Valid()
      ensures sequences == map[] && sequenceNames == [] && currentSequenceIndex == 0
      ensures points == [] && !occludedMode && currentCategory == Index
      ensures store == saved
    {
      sequences := map[];
      sequenceNames := [];
      currentSequenceIndex := 0;
      points := [];
      occludedMode := false;
      currentCategory := Index;
      store := saved;
    }

    /** `saveProgress`: the current list is stored under the current name. */
    method SaveProgress()
      requires Valid()
      modifies this
      ensures Valid()
      ensures store == old(store)[old(CurrentName()) := points]
      ensures sequences == old(sequences) && sequenceNames == old(sequenceNames)
      ensures currentSequenceIndex == old(currentSequenceIndex) && points == old(points)
      ensures occludedMode == old(occludedMode) && currentCategory == old(currentCategory)
    {
      store := store[CurrentName() := points];
    }

    /** `loadProgress`: the current list becomes the stored one, or empty when nothing is stored. */
    method LoadProgress()
      requires Valid()
      modifies this
      ensures Valid()
      ensures points == Load(store, CurrentName())
      ensures store == old(store)
      ensures sequences == old(sequences) && sequenceNames == old(sequenceNames)
      ensures currentSequenceIndex == old(currentSequenceIndex)
      ensures occludedMode == old(occludedMode) && currentCategory == old(currentCategory)
    {
      points := Load(store, CurrentName());
    }

    /**
     * `groupImagesIntoSequences`: files the names by key, then adds every key
     * with exactly two names as a sequence holding the sorted pair. A key
     * already known keeps its place in `sequenceNames` and takes the new pair;
     * a new key goes to the end, in the order its first name was uploaded.
     */
    method GroupImagesIntoSequences(imageNames: seq<string>)
      requires Valid()
      modifies this
      ensures Valid()
      ensures sequences == old(sequences) + Pairs(imageNames)
      ensures sequenceNames
           == old(sequenceNames) + NewNames(Discovered(imageNames), imageNames, old(sequences).Keys)
      ensures currentSequenceIndex == old(currentSequenceIndex) && points == old(points)
      ensures store == old(store)
      ensures occludedMode == old(occludedMode) && currentCategory == old(currentCategory)
    {
      var prefixMap, keyOrder := FileByKey(imageNames);
      var seqs, order := AddPairs(sequences, sequenceNames, imageNames, prefixMap, keyOrder);
      PairsAmongDiscovered(imageNames);
      Extended(sequences, sequenceNames, keyOrder, imageNames);
      sequences := seqs;
      sequenceNames := order;
    }

    /**
     * The upload handler: the grouping runs inside the per-file callback, so
     * an empty selection does nothing. Otherwise the names are grouped, then
     * the first sequence and its stored points are opened when there is any
     * sequence at all (otherwise the page reports that no pair was found).
     */
    method LoadSequences(imageNames: seq<string>) returns (found: bool)
      requires Valid()
      modifies this
      ensures Valid()
      ensures found <==> imageNames != [] && |sequenceNames| > 0
      ensures imageNames == [] ==> sequences == old(sequences) && sequenceNames == old(sequenceNames)
      ensures imageNames != [] ==> sequences == old(sequences) + Pairs(imageNames)
      ensures imageNames != [] ==>
        sequenceNames == old(sequenceNames) + NewNames(Discovered(imageNames), imageNames, old(sequences).Keys)
      ensures found ==> currentSequenceIndex == 0 && points == Load(store, sequenceNames[0])
      ensures !found ==> currentSequenceIndex == old(currentSequenceIndex) && points == old(points)
      ensures store == old(store)
      ensures occludedMode == old(occludedMode) && currentCategory == old(currentCategory)
    {
      if imageNames == [] {
        return false;
      }
      GroupImagesIntoSequences(imageNames);
      found := |sequenceNames| > 0;
      if found {
        currentSequenceIndex := 0;
        LoadProgress();
      }
    }

    /** The point a click in `slot` at `(x, y)` would place. */
    ghost function Candidate(slot: nat, x: real, y: real): Point
      requires Valid() && HasCurrent()
      reads this
    {
      Point(x, y, ImageForSlot(CurrentPair(), slot), currentCategory, Some(occludedMode))
    }

    /**
     * `annotatePoint`: a click places a point of the current category on the
     * clicked image unless that image already has one of that category or the
     * list already holds four points; a placed point carries the occluded
     * mode, which is then switched off, and the list is stored. Without a
     * current sequence the handler fails before anything changes.
     */
    method AnnotatePoint(slot: nat, x: real, y: real) returns (r: Placement)
      requires Valid()
      modifies this
      ensures Valid()
      ensures !old(HasCurrent()) ==> r == Rejected(NoSequence) && points == old(points)
      ensures old(HasCurrent()) ==>
        var p := old(Candidate(slot, x, y));
        && points == Step(old(points), Place(p))
        && (r == Placed(p) <==> Check(old(points), p.imgName, p.category) == None)
        && (r.Rejected? ==> Check(old(points), p.imgName, p.category) == Some(r.reason))
      ensures r.Placed? ==>
        points == old(points) + [r.point] && !occludedMode && store == old(store)[old(CurrentName()) := points]
      ensures r.Rejected? ==>
        points == old(points) && occludedMode == old(occludedMode) && store == old(store)
      ensures WellFormed(old(points)) ==> WellFormed(points)
      ensures sequences == old(sequences) && sequenceNames == old(sequenceNames)
      ensures currentSequenceIndex == old(currentSequenceIndex) && currentCategory == old(currentCategory)
    {
      if !HasCurrent() {
        return Rejected(NoSequence);
      }
      var img := ImageForSlot(CurrentPair(), slot);
      if SomeMatches(points, img, currentCategory) {
        return Rejected(DuplicateCategory);
      }
      if |points| >= 4 {
        return Rejected(SequenceFull);
      }
      var isOccluded := occludedMode;
      if occludedMode {
        occludedMode := false;
      }
      var p := Point(x, y, img, currentCategory, Some(isOccluded));
      assert WellFormed(points) ==> WellFormed(points + [p]) by {
        if WellFormed(points) {
          StepPreserves(points, Place(p));
        }
      }
      points := points + [p];
      SaveProgress();
      r := Placed(p);
    }

    /** `handleOccluded`: the next placed point is marked occluded. */
    method HandleOccluded()
      modifies this
      ensures occludedMode
      ensures points == old(points) && store == old(store) && currentCategory == old(currentCategory)
      ensures sequences == old(sequences) && sequenceNames == old(sequenceNames)
      ensures currentSequenceIndex == old(currentSequenceIndex)
    {
      occludedMode := true;
    }

    /** `handleUndo`: the last point is dropped and the list stored; an empty list is left alone. */
    method HandleUndo()
      requires Valid()
      modifies this
      ensures Valid()
      ensures points == Undo(old(points))
      ensures store == if old(points) == [] then old(store) else old(store)[CurrentName() := points]
      ensures WellFormed(old(points)) ==> WellFormed(points)
      ensures sequences == old(sequences) && sequenceNames == old(sequenceNames)
      ensures currentSequenceIndex == old(currentSequenceIndex)
      ensures occludedMode == old(occludedMode) && currentCategory == old(currentCategory)
    {
      if |points| > 0 {
        assert WellFormed(points) ==> WellFormed(Undo(points)) by {
          if WellFormed(points) {
            StepPreserves(points, UndoLast);
          }
        }
        points := Undo(points);
        SaveProgress();
      }
    }

    /** `resetImageAnnotations`: the current list is emptied and stored empty. */
    method ResetImageAnnotations()
      requires Valid()
      modifies this
      ensures Valid()
      ensures points == [] && store == old(store)[CurrentName() := []]
      ensures sequences == old(sequences) && sequenceNames == old(sequenceNames)
      ensures currentSequenceIndex == old(currentSequenceIndex)
      ensures occludedMode == old(occludedMode) && currentCategory == old(currentCategory)
    {
      points := [];
      SaveProgress();
    }

    /**
     * `resetAllAnnotations`: the stored list of every known sequence is
     * removed and the current list emptied; lists stored under other names
     * stay.
     */
    method ResetAllAnnotations()
      requires Valid()
      modifies this
      ensures Valid()
      ensures store == old(store) - set k | k in sequenceNames
      ensures points == []
      ensures sequences == old(sequences) && sequenceNames == old(sequenceNames)
      ensures currentSequenceIndex == old(currentSequenceIndex)
      ensures occludedMode == old(occludedMode) && currentCategory == old(currentCategory)
    {
      var s := store;
      var i := 0;
      while i < |sequenceNames|
        invariant 0 <= i <= |sequenceNames|
        invariant s == old(store) - set k | k in sequenceNames[..i]
      {
        assert sequenceNames[..i + 1] == sequenceNames[..i] + [sequenceNames[i]];
        s := s - {sequenceNames[i]};
        i := i + 1;
      }
      assert sequenceNames[..i] == sequenceNames;
      store := s;
      points := [];
    }

    /**
     * `scrollImages`: the arrow keys move the cursor round the sequences and
     * open the stored points of the sequence reached; other keys do nothing.
     */
    method ScrollImages(key: Key)
      requires Valid()
      modifies this
      ensures Valid()
      ensures sequences == old(sequences) && sequenceNames == old(sequenceNames)
      ensures currentSequenceIndex == Scroll(old(currentSequenceIndex), |sequenceNames|, key)
      ensures points == if key == OtherKey then old(points) else Load(store, CurrentName())
      ensures store == old(store)
      ensures occludedMode == old(occludedMode) && currentCategory == old(currentCategory)
    {
      if key != OtherKey {
        currentSequenceIndex := Scroll(currentSequenceIndex, |sequenceNames|, key);
        LoadProgress();
      }
    }

    /** The category toggle: index and thumb take turns. */
    method ToggleCategory()
      modifies this
      ensures currentCategory == Toggle(old(currentCategory))
      ensures points == old(points) && store == old(store) && occludedMode == old(occludedMode)
      ensures sequences == old(sequences) && sequenceNames == old(sequenceNames)
      ensures currentSequenceIndex == old(currentSequenceIndex)
    {
      currentCategory := Toggle(currentCategory);
    }

    /**
     * `checkZoomInCondition`: the contact-region zoom is enabled exactly when
     * the contact image (the second of the pair) has both an index and a thumb
     * point; without a current sequence the check fails (`None`).
     */
    method CheckZoomInCondition() returns (enabled: Option<bool>)
      requires Valid()
      ensures enabled.None? <==> !HasCurrent()
      ensures enabled.Some? ==>
        (enabled.value <==> HasSlot(points, CurrentPair()[1], Index) && HasSlot(points, CurrentPair()[1], Thumb))
    {
      if !HasCurrent() {
        return None;
      }
      var contact := CurrentPair()[1];
      enabled := Some(ContactZoomEnabled(points, contact));
    }

    /** `saveAnnotations`: the file holds one entry per known sequence with its stored points, shaped for export. */
    method SaveAnnotations() returns (doc: Document)
      ensures doc == ExportDoc(sequenceNames, store)
    {
      doc := map[];
      var i := 0;
      while i < |sequenceNames|
        invariant 0 <= i <= |sequenceNames|
        invariant doc == ExportDoc(sequenceNames[..i], store)
      {
        var name := sequenceNames[i];
        var shaped := ShapePoints(Load(store, name));
        assert sequenceNames[..i + 1] == sequenceNames[..i] + [name];
        doc := doc[name := Entry(Some(name), Some(shaped))];
        i := i + 1;
      }
      assert sequenceNames[..i] == sequenceNames;
    }

    /**
     * The annotation-file handler: every entry with a `points` field
     * overwrites the stored list of its name, then the current list is
     * reloaded from the store.
     */
    method ImportAnnotations(doc: Document)
      requires Valid()
      modifies this
      ensures Valid()
      ensures store == ImportStore(old(store), doc)
      ensures points == Load(store, CurrentName())
      ensures sequences == old(sequences) && sequenceNames == old(sequenceNames)
      ensures currentSequenceIndex == old(currentSequenceIndex)
      ensures occludedMode == old(occludedMode) && currentCategory == old(currentCategory)
    {
      store := ImportEntries(store, doc);
      LoadProgress();
    }
  }
}
