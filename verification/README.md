# Point annotation tool: a verified model of its annotation state

The tool shows two images of a hand-contact sequence side by side. The user
clicks to place landmark points of two categories, `index` and `thumb`, on
either image. All of this logic lives in `script.js`. This project models the
part of that file that keeps and changes state:

- **Grouping** of uploaded file names into sequences. Every name with an
  underscore is filed under its key, which is all tokens but the last. A key
  with exactly two names becomes a sequence holding the sorted pair.
- **Point placement**. A click maps its canvas to one image of the pair. It is
  rejected when that image already has a point of the current category, or
  when the sequence already has four points. Otherwise the point is appended
  and carries the one-shot occluded mode.
- **Undo, reset and the per-sequence store** of point lists.
- **Navigation** with the arrow keys.
- **The contact-zoom condition** and the category toggle.
- **Export and import** of the annotation file.

Modules:

- `Names` (`names.dfy`) models `split("_")` and `join("_")`, the grouping key,
  and the order the default `sort` uses.
- `Grouping` (`grouping.dfy`) gives the reference definitions the grouping
  loops are proved against, and the grouping as written over a plain object.
- `Annotations` (`annotations.dfy`) holds points, the placement checks, undo,
  the cardinality invariant, the zoom condition and the toggle.
- `Exchange` (`exchange.dfy`) holds the store, the shape of the exported
  file, and import.
- `Navigation` (`navigation.dfy`) models the cursor. Its as-written
  counterpart uses JavaScript's `%`.
- `Session` (`session.dfy`) holds the page's mutable state as a class, with
  one method per handler. The loops of the grouping and of import are
  methods proved against the functions above.
- `Common` (`common.dfy`) holds `Option`, `Distinct`, and the extensionality
  helpers.

Some things are inputs to the model rather than computed:

- The browser store (`localStorage`) is a field mapping a sequence name to
  its point list.
- Click coordinates are already mapped into the original image's pixel space,
  and are passed in as opaque `real`s.
- A parsed annotation file is a map from names to entries. A missing field is
  `None`.

Behaviours of the code worth knowing:

- Import overwrites a stored list for any entry whose `points` is truthy,
  which includes `points: []` (script.js:374-376).
- With four points on the pair, every (image, category) slot is taken, so a
  further click fails the duplicate check at script.js:138-142 before the
  four-point check at script.js:145-148 is reached
  (`Annotations.FullPairRejectsAsDuplicate`).
- Arrow keys with no sequence loaded are not a no-op: the cursor becomes NaN
  (script.js:300-303). See Findings.

## Model

| member | source | states |
|---|---|---|
| Names.Split | script.js:316 | `split("_")` gives at least one token, and no token contains an underscore |
| Names.JoinSplit | script.js:316-318 | joining the tokens of a name with `_` gives the name back |
| Names.SplitCount | script.js:316-317 | a name has two or more tokens exactly when it contains an underscore, so single-token names are skipped |
| Names.Join | script.js:318 | `join("_")` of one token is that token, and of two or more tokens holds an underscore |
| Names.GroupKey | script.js:316-318 | a name without an underscore has the empty key; for one with an underscore, see `Names.KeyShape` and `Names.KeyUnique` |
| Names.KeyShape | script.js:316-318 | a name with an underscore is its key, `_`, and a last token without underscores |
| Names.KeyUnique | script.js:318 | whenever `name == prefix + "_" + suffix` with `suffix` free of underscores, the key is `prefix` |
| Names.LexTotal | script.js:325 | any two names are ordered one way or the other by the sort order |
| Names.LexAntisymmetric | script.js:325 | two names ordered both ways are equal |
| Grouping.Group | script.js:315-321 | the list filed under `k` holds exactly the uploaded names whose key is `k`, and is no longer than the upload |
| Grouping.Discovered | script.js:314-323 | the keys the second loop visits are distinct, and a key is among them exactly when some name is filed under it |
| Grouping.PrefixMap | script.js:314-321 | `prefixMap` has an entry exactly for the keys with some name, and each entry is that key's group |
| Grouping.SortPair | script.js:325 | the sorted pair is ordered and is a permutation of the group |
| Grouping.PairsAmong | script.js:323-327 | visiting `keys` adds an entry exactly for the visited keys with two names, holding the sorted group |
| Grouping.Pairs | script.js:323-327 | grouping adds a sequence exactly for each key with two names; the pair is ordered, a permutation of the group, and the sorted group |
| Grouping.NewNames | script.js:323-329 | a key is appended to the names exactly when it was visited, has two names, and was not a sequence before |
| Grouping.PairsAmongDiscovered | script.js:323-327 | visiting the discovered keys adds exactly `Pairs` |
| Grouping.PairsAmongStep | script.js:324-326 | visiting one more key adds its sorted pair when its group has two names, and changes nothing otherwise |
| Grouping.AddStep | script.js:323-327 | one visit of the second loop, on the values the loop holds, extends both the sequences and the name order as the reference definitions say |
| Grouping.FileStep | script.js:315-321 | one pass of the first loop, on the values it holds, turns the map and key order of the names so far into those of one name more |
| Grouping.Extended | script.js:323-329 | after grouping, `sequenceNames` still lists every sequence once and nothing else, and every sequence is a pair |
| Grouping.PairMembers | script.js:316-318 | every name in a pair was uploaded, contains an underscore, and is the pair's key, `_`, and an underscore-free last token |
| Grouping.PairsInGroup | script.js:318-325 | every name in a pair is filed under the pair's key |
| Grouping.GroupAppend | script.js:315-321 | filing `a + b` gives, per key, the group of `a` followed by the group of `b` |
| Grouping.GroupFlatten | script.js:315-321 | regrouping the pairs listed under distinct keys gives each key back its pair |
| Grouping.GroupingIdempotent | script.js:313-330 | grouping the names of the sequences found yields the same sequences again |
| Grouping.PrefixMapAsWritten | script.js:314-321 | the first loop as written, over a plain object, fails exactly when some uploaded name's key names an inherited member; when it succeeds no key is such a name |
| Grouping.PrefixMapAsWrittenAgrees | script.js:314-321 | when no key names an inherited object member, the first loop as written builds `PrefixMap` |
| Grouping.InheritedKeyThrows | script.js:314-320 | two uploads whose key names an inherited member form a pair, yet the first loop as written throws |
| Grouping.ToStringPairThrows | script.js:314-320 | `toString_a` and `toString_b` form a pair, yet the first loop as written throws |
| Grouping.TwoSequencesScenario | script.js:313-330 | uploading `A_l`, `A_r`, `B_l`, `B_r` discovers `A` then `B`, each with its ordered pair |
| Session.FileByKey | script.js:314-321 | the first loop leaves `prefixMap` equal to `PrefixMap` and the key order equal to `Discovered` |
| Session.AddOne | script.js:324-326 | one visit of the second loop on a group: a group of two is stored sorted under its key, and the key is appended when it was not a sequence yet; `Grouping.AddStep` ties this to the reference definitions |
| Session.AddPairs | script.js:323-327 | the second loop adds `PairsAmong` over the visited keys, and appends the new names in visiting order |
| Session.ImportEntries | script.js:372-380 | the import loop, in whatever order it visits the entries, leaves the store equal to `ImportStore` |
| Session.ImageForSlot | script.js:134 | a click on canvas 0 picks the pair's second image, any other canvas the first, and the image is in the pair |
| Session.Session.constructor | script.js:1-15 | a fresh page has no sequences, cursor 0, no points, occluded mode off and category `index`, and keeps the store |
| Session.Session.CurrentName | script.js:233 | the storage name is the current sequence name, or `undefined` when the cursor is out of range |
| Session.Session.CurrentPair | script.js:54 | the current pair has two images and is the entry of the current name |
| Session.Session.SaveProgress | script.js:232-234 | the store maps the current name to the current list, and nothing else changes |
| Session.Session.LoadProgress | script.js:236-243 | the current list becomes the stored list, or `[]` when none is stored |
| Session.Session.GroupImagesIntoSequences | script.js:313-330 | existing sequences are kept and `Pairs` overrides them; new keys are appended to `sequenceNames` in discovery order; every name is listed once; every sequence is a pair |
| Session.Session.LoadSequences | script.js:336-352 | an empty selection changes nothing; otherwise, after grouping, when any sequence exists the cursor goes to 0 and its stored points are loaded, and when none exists the cursor and points stay |
| Session.Session.AnnotatePoint | script.js:131-163 | with no current sequence the handler fails and the points stay. Otherwise the list becomes `Step(points, Place(p))` for the point the click denotes. The point is placed iff `Check` passes, and a rejection carries `Check`'s reason. A placed point is appended last, occluded mode is cleared, and the store holds the new list. A rejection changes neither the points, the mode nor the store. The cardinality invariant is kept |
| Session.Session.HandleOccluded | script.js:187-190 | occluded mode is switched on and nothing else changes |
| Session.Session.HandleUndo | script.js:192-198 | the list loses its last point and is stored; an empty list leaves list and store alone; the cardinality invariant is kept |
| Session.Session.ResetImageAnnotations | script.js:280-286 | the current list becomes empty and is stored empty under the current name only |
| Session.Session.ResetAllAnnotations | script.js:288-296 | the stored list of every name in `sequenceNames` is removed, other stored lists stay, the current list is emptied and the cursor is unchanged |
| Session.Session.ScrollImages | script.js:298-306 | the arrow keys move the cursor as `Scroll` does and load the stored points of the sequence reached; other keys change nothing |
| Session.Session.ToggleCategory | script.js:516-526 | the category becomes the other one |
| Session.Session.CheckZoomInCondition | script.js:53-58 | with a current sequence, the zoom is enabled iff the contact image (the pair's second) has both an index and a thumb point; without one the check fails |
| Session.Session.SaveAnnotations | script.js:200-222 | the exported document is `ExportDoc` of `sequenceNames` and the store |
| Session.Session.ImportAnnotations | script.js:368-382 | the store becomes `ImportStore` of the old store and the file, and the current list is reloaded from it |
| Annotations.Toggle | script.js:516-526 | the toggle always changes the category |
| Annotations.ToggleInvolution | script.js:516-526 | toggling twice gives the category back |
| Annotations.CountSlot | script.js:138 | the number of points with the given image and category is at most the list length, and positive iff such a point exists |
| Annotations.SomeMatches | script.js:55-56 | `points.some(...)` holds iff some point has the given image and category |
| Annotations.Check | script.js:136-148 | a click passes iff its slot is free and there are fewer than four points; it is a duplicate iff the slot is taken; it is full iff the slot is free and there are four or more points |
| Annotations.Undo | script.js:193-194 | an empty list stays empty; otherwise exactly the last point is removed |
| Annotations.Step | script.js:136-194 | a placement appends its point exactly when the slot is free and there are fewer than four points, and otherwise leaves the list; an undo is `Undo` |
| Annotations.Run | script.js:131-198 | a series of actions adds at most one point per action |
| Annotations.StepPreserves | script.js:136-148 | one placement attempt or undo keeps at most four points and at most one per image and category |
| Annotations.RunPreserves | script.js:131-163 | any series of placement attempts and undos keeps the cardinality invariant stated at script.js:8-13 |
| Annotations.UndoAfterPlace | script.js:162 | undo right after a successful placement gives back the list as it was |
| Annotations.AtMostFourOnAPair | script.js:8-13 | points on two images with no repeated (image, category) number four at most |
| Annotations.FullPairRejectsAsDuplicate | script.js:136-148 | with four such points, any click on the pair is rejected as a duplicate category |
| Annotations.FourPlacementsSucceed | script.js:136-162 | an index and a thumb point on each image of a pair, placed on an empty list, are all accepted, and any further click on the pair is then rejected as a duplicate |
| Annotations.ContactZoomEnabled | script.js:53-58 | enabled iff the contact image has both an index point and a thumb point |
| Annotations.ZoomScenario | script.js:53-58 | placing an index and then a thumb point on the contact image enables the zoom, and undoing the second disables it |
| Exchange.Load | script.js:236-243 | a missing entry loads as `[]`, a present one as stored |
| Exchange.ExportPoint | script.js:212-218 | the exported point keeps coordinates, image and category, carries an explicit flag that is set iff the stored one was `true`, and equals a point that already had a flag |
| Exchange.ExportPoints | script.js:211-219 | one exported point per stored point, with the same coordinates, image and category, and `occluded` set to whether it was `true` |
| Exchange.ShapePoints | script.js:211-219 | the `forEach` that pushes shaped points builds `ExportPoints` |
| Exchange.ExportDoc | script.js:203-222 | the file has an entry exactly for each sequence name, naming the sequence and holding its exported stored points (`[]` when none) |
| Exchange.ImportStore | script.js:372-380 | every entry with `points` overwrites its name, and every other stored list is kept |
| Exchange.ImportOne | script.js:374-376 | importing one more entry overwrites its name when it has `points`, and changes nothing otherwise |
| Exchange.ExportPointsFixed | script.js:217 | exporting leaves a list whose points all carry an explicit flag unchanged |
| Exchange.ExportThenImport | script.js:203-222 | importing an export gives each named sequence its exported list and leaves other stored lists alone |
| Exchange.ExportImportRoundTrip | script.js:372-380 | export followed by import restores every stored list whose points carry explicit `occluded` flags |
| Exchange.MissingFlagExportsFalse | script.js:217 | a point stored without a flag is exported as not occluded |
| Navigation.Scroll | script.js:298-306 | with at least one sequence the cursor stays in range. ArrowRight moves it on and wraps the last to 0. ArrowLeft moves it back and wraps 0 to the last. Other keys leave it |
| Navigation.ScrollBackAndForth | script.js:299-304 | left then right, or right then left, returns to the same sequence |
| Navigation.ScrollRight | script.js:302-303 | any number of ArrowRight presses keeps the cursor in range |
| Navigation.ScrollRightMoves | script.js:302-303 | up to one round of presses moves the cursor on by their number, wrapping once |
| Navigation.FullCircle | script.js:302-303 | `count` presses come back to the start, and every sequence is reached on the way |
| Navigation.JsRemainder | script.js:300-303 | JavaScript's `%`: NaN exactly for a zero divisor, otherwise `a - b * q` with `q` the quotient rounded toward zero, smaller in size than the divisor and with the sign of the dividend |
| Navigation.ScrollAsWritten | script.js:298-306 | as written, an arrow key yields NaN exactly when there are no sequences; other keys keep the cursor |
| Navigation.ScrollAsWrittenAgrees | script.js:298-306 | with at least one sequence, the code's `%` arithmetic moves the cursor as `Scroll` does |
| Navigation.ScrollWithoutSequences | script.js:300-303 | with no sequence, the code as written sets the cursor to NaN, while `Scroll` leaves it |

## Left out

- Canvas drawing is not modelled: the images, the point markers, the magnifier and the zoomed contact region. Neither is the zoom-region toggle at script.js:499-506, which only shows or hides that drawing.
- The scaling between display and original pixel coordinates is not modelled. It is floating-point arithmetic on layout rectangles, so the placement methods take the mapped `x` and `y` as parameters.
- Image loading, `FileReader` and object URLs are not modelled. They are asynchronous I/O. The upload handler is modelled from the moment all names are collected (`LoadSequences`).
- JSON text is not modelled: `JSON.stringify`, `JSON.parse` and parse errors. The store holds point lists, not text, and an annotation file is a map of entries.
- Partial imports are not modelled. A `null` entry throws `TypeError` part-way through the import loop, and imported field values of other types cannot be represented: a category other than `index`/`thumb`, or a non-boolean `occluded` such as `1`, which `point.occluded || false` (script.js:217) would export unchanged.
- Exchange.ExportPoint: its statement that the exported flag is set iff the stored one was `true` covers only the representable flags, boolean or missing.
- The `_points` suffix of storage keys is not modelled. The store is keyed by sequence name.
- Alerts, console messages, titles, progress text and button classes are not modelled. They have no effect on the model's state.
- Insertion order is assumed to be the enumeration order of `Object.keys` and `for .. in`. Integer-like keys come first in JavaScript, and the model does not capture that.
- Names.LexLessEq compares characters as Dafny does. JavaScript's default `sort` compares UTF-16 code units, which differs outside the Basic Multilingual Plane.
- Session.Session.GroupImagesIntoSequences: the corrected grouping stores every key as an ordinary entry, including `__proto__`. In the code as written, the first loop already throws for that key (`Grouping.PrefixMapAsWritten`), so the assignment to `sequences["__proto__"]`, which would replace the object's prototype, never runs.
- `checkZoomInCondition` reads `sequences[...][1]` from a possibly missing sequence. The model returns `None` for that case instead of modelling the thrown `TypeError`.

## Findings

| source | as written | input that shows it | evidently intended | confidence | as-written member | corrected member |
|---|---|---|---|---|---|---|
| script.js:314-320 | `prefixMap` is a plain object literal. For a key that names an inherited member (`toString`, `constructor`, ...), `!prefixMap[seqKey]` is false, so no array is created, and `prefixMap[seqKey].push` throws `TypeError` | uploading `toString_a` and `toString_b` | every key is an own dictionary entry, so the two names form the sequence `toString` | high, derived from the code; not executed | Grouping.InheritedKeyThrows | Session.Session.GroupImagesIntoSequences |
| script.js:298-306 | with no sequences, `% sequenceNames.length` divides by zero, and the cursor becomes `NaN` | any arrow key before a successful upload | the cursor stays where it is when there are no sequences | high, derived from the code; not executed | Navigation.ScrollWithoutSequences | Navigation.Scroll |
