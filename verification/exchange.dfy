/**
 * The per-sequence store and the annotation file. The store maps a sequence
 * name to its point list (the browser keeps it under `<name>_points`); the
 * exported file holds one `{sequence, points}` entry per sequence name, and
 * importing a file overwrites the stored list of every entry that has a
 * `points` field.
 */
module Exchange {
  import opened Common
  import opened Annotations

  /** Durable point lists, by sequence name. */
  type Store = map<string, seq<Point>>

  /** One entry of an annotation file; a field missing from the file is `None`. */
  datatype Entry = Entry(sequence: Option<string>, points: Option<seq<Point>>)

  /** An annotation file: entries by sequence name. */
  type Document = map<string, Entry>

  /** The stored list of a sequence, or the empty list when there is none. */
  function Load(store: Store, name: string): (pts: seq<Point>)
    ensures name !in store ==> pts == []
    ensures name in store ==> pts == store[name]
  {
    if name in store then store[name] else []
  }

  /** A point as the export writes it: the same fields, with `occluded || false`. */
  function ExportPoint(p: Point): (q: Point)
    ensures q.x == p.x && q.y == p.y && q.imgName == p.imgName && q.category == p.category
    ensures q.occluded.Some? && (q.occluded.value <==> p.occluded == Some(true))
    ensures p.occluded.Some? ==> q == p
  {
    var flag := p.occluded == Some(true);
    assert p.occluded.Some? ==> p.occluded == Some(flag) by {
      if p.occluded.Some? && !p.occluded.value {
        assert p.occluded == Some(false);
      }
    }
    Point(p.x, p.y, p.imgName, p.category, Some(flag))
  }

  /** The exported points of a stored list. */
  function ExportPoints(pts: seq<Point>): (out: seq<Point>)
    ensures |out| == |pts|
    ensures forall i :: 0 <= i < |pts| ==>
      && out[i].x == pts[i].x && out[i].y == pts[i].y
      && out[i].imgName == pts[i].imgName && out[i].category == pts[i].category
      && out[i].occluded.Some?
      && (out[i].occluded.value <==> pts[i].occluded == Some(true))
  {
    seq(|pts|, i requires 0 <= i < |pts| => ExportPoint(pts[i]))
  }

  /** The inner `forEach` of the export, which pushes each shaped point in turn. */
  method ShapePoints(pts: seq<Point>) returns (out: seq<Point>)
    ensures out == ExportPoints(pts)
  {
    out := [];
    var i := 0;
    while i < |pts|
      invariant 0 <= i <= |pts|
      invariant out == ExportPoints(pts[..i])
    {
      assert pts[..i + 1] == pts[..i] + [pts[i]];
      out := out + [ExportPoint(pts[i])];
      i := i + 1;
    }
    assert pts[..i] == pts;
  }

  /** Every point has an explicit `occluded` flag. */
  ghost predicate Explicit(pts: seq<Point>)
  {
    forall i :: 0 <= i < |pts| ==> pts[i].occluded.Some?
  }

  /** Exporting changes nothing in a list whose points all carry their flag. */
  lemma {:induction false} ExportPointsFixed(pts: seq<Point>)
    requires Explicit(pts)
    ensures ExportPoints(pts) == pts
  {
    var out := ExportPoints(pts);
    forall i | 0 <= i < |pts| ensures out[i] == pts[i] {
      var p := pts[i];
      if p.occluded.value {
        assert out[i].occluded == Some(true) == p.occluded;
      } else {
        assert out[i].occluded == Some(false) == p.occluded;
      }
      assert out[i] == Point(p.x, p.y, p.imgName, p.category, p.occluded);
    }
    assert out == pts;
  }

  /** The exported file: one entry per sequence name, with its stored points or none. */
  function ExportDoc(names: seq<string>, store: Store): (doc: Document)
    ensures forall k :: k in doc <==> k in names
    ensures forall k | k in doc ::
      doc[k].sequence == Some(k) && doc[k].points == Some(ExportPoints(Load(store, k)))
  {
    map k | k in names :: Entry(Some(k), Some(ExportPoints(Load(store, k))))
  }

  /** The store after importing a file: entries with `points` overwrite, the rest is kept. */
  function ImportStore(store: Store, doc: Document): (after: Store)
    ensures forall k :: k in after <==> k in store || (k in doc && doc[k].points.Some?)
    ensures forall k | k in doc && doc[k].points.Some? :: after[k] == doc[k].points.value
    ensures forall k | k in store && !(k in doc && doc[k].points.Some?) :: after[k] == store[k]
  {
    store + map k | k in doc && doc[k].points.Some? :: doc[k].points.value
  }

  /** Importing one more entry overwrites its name when it has `points` and changes nothing otherwise. */
  lemma {:induction false} ImportOne(store: Store, seen: Document, k: string, e: Entry)
    requires k !in seen
    ensures ImportStore(store, seen[k := e])
         == if e.points.Some? then ImportStore(store, seen)[k := e.points.value] else ImportStore(store, seen)
  {
    var l := ImportStore(store, seen[k := e]);
    var r := if e.points.Some? then ImportStore(store, seen)[k := e.points.value] else ImportStore(store, seen);
    forall x ensures (x in l <==> x in r) && (x in l ==> l[x] == r[x]) {
    }
    MapExt(l, r);
  }

  /**
   * Importing an export gives every named sequence its exported list and
   * leaves every other stored list as it was.
   */
  lemma {:induction false} ExportThenImport(names: seq<string>, store: Store, k: string)
    ensures Load(ImportStore(store, ExportDoc(names, store)), k)
         == if k in names then ExportPoints(Load(store, k)) else Load(store, k)
  {
  }

  /**
   * So exporting and importing again restores every stored list whose points
   * all carry an explicit `occluded` flag.
   */
  lemma {:induction false} ExportImportRoundTrip(names: seq<string>, store: Store)
    requires forall k | k in store :: Explicit(store[k])
    ensures forall k :: Load(ImportStore(store, ExportDoc(names, store)), k) == Load(store, k)
  {
    forall k ensures Load(ImportStore(store, ExportDoc(names, store)), k) == Load(store, k) {
      ExportThenImport(names, store, k);
      if k in store {
        ExportPointsFixed(store[k]);
      }
    }
  }

  /** A point imported without its flag comes back from a round trip as not occluded. */
  lemma {:induction false} MissingFlagExportsFalse(p: Point)
    requires p.occluded == None
    ensures ExportPoints([p]) == [p.(occluded := Some(false))]
  {
  }
}
