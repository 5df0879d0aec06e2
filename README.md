# voxelshape-conv core, modelled in Dafny

voxelshape-conv turns Minecraft block models into axis-aligned bounding boxes.
It reads a blockstate file and a model file. For every variant of the blockstate it bounds each element of the model, rotated as the variant says, with a box. It writes a Java class of `VoxelShape` constants built from those boxes to the file named by an optional third argument, or to standard output.
The repository also holds a box merger (`src/merging.rs`) and a scanner for the block's Java sources (`src/scan.rs`). The binary does not compile either of them in, since `src/main.rs` declares only the module `data`.
This project models the geometry the tool runs and, on their own, the merger and the scanner, and proves what they promise.

- **Geometry** (`geometry.dfy`, from `src/main.rs`):
  - the validated constructors `AABox::from`, `Vec3::from` and `Axis::from`;
  - vector add and subtract;
  - the eight corners of a box (`into_verts`);
  - `rotate`, as three in-place passes over the vertex list;
  - `approximate`, which applies the element's own rotation, then the per-variant model rotation (x, then y, then z, about the pivot (8, 8, 8)), then takes the per-axis bounding box;
  - `mkindent`.

  Sine, cosine and pi come from a `Trig` value the caller passes in. So every structural fact holds for any trigonometry.
- **Box merging** (`merging.dfy`, from `src/merging.rs`):
  - `axis_overlap`, `touching` and `merge`;
  - `merge_touching`, the nested-loop engine that merges the first touching pair and rescans until no pair touches.

  The engine is proved equal to the recursive reference `MergeAll`. The properties are proved about `MergeAll`. For well-formed boxes the result does not depend on the order of the input (`Merging.MergeAllOrderFree`). For boxes with a minimum above the maximum it can (`Merging.IllFormedOrderMatters`).
- **Java scanning** (`scan.dfy`, from `src/scan.rs`; string helpers in `text.dfy`):
  - the whitespace searches;
  - `find_dquots` and the quoted-id walk `read_quoted_ids`;
  - the `package` and `class` line scanners;
  - the three block-id line processors;
  - the line-by-line scan of `process_java_file`;
  - `package_into_vec` and the `blockshape` package rewrite;
  - the model and blockstate path filters;
  - the `ids:` line of a block summary.

Conventions:
- `wrappers.dfy` holds `Option` and `Result`.
- Strings are sequences of characters, one per byte. The Java lines are taken to be ASCII.
- Coordinates are reals.
- A source panic (a corner or origin without three components, an unknown axis name) is a `Failure` result.
- A function that writes through `out: &mut Option<String>` returns the new value of `out` as a second result.

Notes on behaviour the model keeps from the code:
- `first_ws` and `first_non_ws` treat only space, tab, line feed and carriage return as white space. `str::trim` also strips the vertical tab and the form feed. So a class-name token made only of those comes out empty (`Scan.ClassnameOfVerticalTab`), although the name never holds any of " \t\n\r".
- `java_classname_find` has an `end < start` guard. It can never fire, because `first_ws` returns an offset from `start`.
- The package rewrite joins its parts in reverse order; see Findings. `process_java_file` calls `find_bb_target` with `prefer_blockshape_package = false`, so today the target always sits next to the Java file. The rewrite is therefore never reached. `Scan.TargetPackage` uses the corrected rewrite (see Left out).

## Model

| member | source | states |
|---|---|---|
| Geometry.BoxFrom | src/main.rs:20-25 | succeeds exactly when both corners have three components, otherwise MalformedVector; `from` becomes the minimum slots and `to` the maximum slots, unreordered |
| Geometry.Vec3From | src/main.rs:47-51 | succeeds exactly on three components, which it keeps in order; otherwise MalformedVector |
| Geometry.AxisFrom | src/main.rs:33-40 | X exactly for "x"/"X", Y exactly for "y"/"Y", Z exactly for "z"/"Z", InvalidAxis for anything else |
| Geometry.AxisFromName | src/main.rs:33-40 | an axis name read back, in lower or upper case, gives the axis |
| Geometry.BoxFromCorners | src/main.rs:20-25 | building a box from its own two corners rebuilds it |
| Geometry.Add | src/main.rs:54-60 | the sum on every axis; subtracting the same vector again gives the first vector back |
| Geometry.Sub | src/main.rs:62-68 | the difference on every axis |
| Geometry.SubAddInverse | src/main.rs:54-68 | add and subtract are componentwise; translating out and back (either order) is the identity |
| Geometry.IntoVerts | src/main.rs:111-131 | eight corners, the bottom face (minimum z) first, each top corner above the matching bottom corner |
| Geometry.IntoVertsCorners | src/main.rs:111-131 | a point is a corner exactly when each coordinate is that axis's minimum or maximum |
| Geometry.MinAlong | src/main.rs:99-106 | the minimum along an axis is at most every coordinate and attained by some vertex |
| Geometry.MaxAlong | src/main.rs:99-106 | the maximum along an axis is at least every coordinate and attained by some vertex |
| Geometry.Bounds | src/main.rs:99-108 | every vertex lies inside the box, the box is well formed, and every bound is attained by some vertex |
| Geometry.BoundsAlongAgree | src/main.rs:99-108 | lists that agree along an axis have the same bounds along it |
| Geometry.BoundsOfCorners | src/main.rs:99-131 | the bounds of a box's corners along an axis are the smaller and larger corner coordinates |
| Geometry.CornerAlong | src/main.rs:111-131 | every corner sits at the low or the high side along each axis |
| Geometry.Turn | src/main.rs:138-160 | the coordinate on the rotation axis is kept; with sin 0 = 0 and cos 0 = 1, a zero angle leaves the vertex as it was |
| Geometry.RotateAboutKeepsAxis | src/main.rs:139-158 | rotating a vertex keeps its coordinate on the rotation axis |
| Geometry.RotateKeepsAxis | src/main.rs:133-165 | `rotate` keeps the vertex count and every coordinate on its axis; the pivot does not move |
| Geometry.ZeroAngleIsIdentity | src/main.rs:133-165 | with sin 0 = 0 and cos 0 = 1, a zero-degree rotation moves no vertex |
| Geometry.Rotate | src/main.rs:133-165 | the three in-place passes give every vertex translated out, turned and translated back |
| Geometry.ElementCorners | src/main.rs:78-82 | validates the corners, expands them, and applies the element's own rotation about its validated origin and axis, angle as given |
| Geometry.RotateModel | src/main.rs:84-97 | applies each non-zero model component, x then y then z, about (8, 8, 8) with the negated angle |
| Geometry.Approximate | src/main.rs:77-109 | the bounds of the transformed corners, or the first validation error |
| Geometry.ZeroRotationIdentity | src/main.rs:77-109 | with no element rotation and a zero model rotation, the result is min and max of the two corners on each axis |
| Geometry.ApproximatedErrors | src/main.rs:77-82 | fails exactly on a malformed corner, origin or axis; InvalidAxis exactly when only the axis is bad |
| Geometry.YRotationKeepsYExtent | src/main.rs:91-108 | a Y-only model rotation of an unrotated element keeps its Y extent, whatever the angle |
| Geometry.SameAlongAxis | src/main.rs:87-97 | a Y-only model rotation keeps every Y coordinate and the vertex count |
| Geometry.Mkindent | src/main.rs:174-179 | `level * tab_width` spaces when tabs are expanded, otherwise `level` tabs |
| Merging.AxisOverlap | src/merging.rs:62-67 | for well-formed intervals, holds exactly when the larger minimum is at most the smaller maximum |
| Merging.AxisOverlapSpec | src/merging.rs:62-67 | overlap is symmetric; for well-formed intervals it holds iff max of the minima is at most min of the maxima |
| Merging.Touching | src/merging.rs:54-60 | no contract of its own (overlap on x, y and z); its symmetry and its shared-point reading are stated by Merging.TouchingSpec |
| Merging.TouchingSpec | src/merging.rs:54-60 | touching is symmetric; for well-formed boxes it holds iff the closed boxes share a point |
| Merging.Merge | src/merging.rs:42-52 | the result contains both boxes, and is well formed when either box is |
| Merging.MergeSpec | src/merging.rs:42-52 | the merge contains both boxes, is the least box that does, is commutative, and is well formed if either input is |
| Merging.ContainsTrans | src/merging.rs:42-52 | containment is transitive |
| Merging.FirstTouchingFrom | src/merging.rs:11-28 | the first touching pair at or after (i, j) in scan order, none before it; none at all when it reports none |
| Merging.FirstTouching | src/merging.rs:11-28 | reports no pair exactly when no two distinct boxes touch; a reported pair touches and is the first in scan order |
| Merging.RemoveAt | src/merging.rs:18-22 | removing one element shortens the list by one |
| Merging.MergeStepSpec | src/merging.rs:17-24 | a step removes both boxes, keeps the others in order, and appends their merge; the list shrinks by one |
| Merging.FirstTouchingOrdered | src/merging.rs:11-22 | the first touching pair always has i < j |
| Merging.MergeAll | src/merging.rs:3-40 | the result is never longer than the input, and is non-empty when the input is |
| Merging.MergeAllUnfold | src/merging.rs:7-39 | one round merges the first touching pair and starts over |
| Merging.MergeAllSpec | src/merging.rs:7-39 | no two result boxes touch, the result is no longer than the input, and every input box lies in some result box |
| Merging.CoversSelf | src/merging.rs:4-5 | every list covers itself |
| Merging.StepCovers | src/merging.rs:17-24 | the list after a step covers the list before it |
| Merging.CoversTrans | src/merging.rs:7-39 | covering is transitive |
| Merging.MergeAllFixpoint | src/merging.rs:36-38 | the result equals the input iff no two input boxes touch; merging twice equals merging once |
| Merging.StepBoundsFrom | src/merging.rs:17-24 | every bound after a step is a bound of some box before it |
| Merging.BoundsFromTrans | src/merging.rs:7-39 | taking bounds from is transitive |
| Merging.MergeAllBoundsFrom | src/merging.rs:7-39 | no output coordinate is invented; each bound is the same bound of some input box |
| Merging.FaceSharingFixture | src/merging.rs:62-67 | two boxes sharing only a face merge into one |
| Merging.DisjointFixture | src/merging.rs:36-38 | two boxes apart on every axis are returned unchanged |
| Merging.ContainsTouches | src/merging.rs:54-67 | a well-formed box touches every box that contains it |
| Merging.TouchingGrows | src/merging.rs:54-67 | boxes containing two touching well-formed boxes touch each other |
| Merging.StepMembers | src/merging.rs:17-24 | after a step, every box but the last is a box of the list before it, and the last is the merge of the pair |
| Merging.StepWellFormed | src/merging.rs:17-24 | a step keeps every box well formed |
| Merging.MergeAllWellFormed | src/merging.rs:3-40 | merging well-formed boxes gives well-formed boxes |
| Merging.StepWithin | src/merging.rs:17-24 | a step stays inside any non-touching list of boxes that covers the list before it |
| Merging.MergeAllWithin | src/merging.rs:3-40 | every result box lies inside some box of any non-touching list that covers the well-formed input |
| Merging.SandwichedIsSame | src/merging.rs:36-38 | in a non-touching list of well-formed boxes, a box inside something inside a box of the list is that box |
| Merging.CoveredBoxOccurs | src/merging.rs:36-38 | a box of one of two non-touching, well-formed lists covering each other occurs in the other |
| Merging.MutualCoverSame | src/merging.rs:36-38 | two non-touching, well-formed lists covering each other hold the same boxes |
| Merging.NoneTouchingDistinct | src/merging.rs:36-38 | pairwise non-touching well-formed boxes are all different |
| Merging.MergeAllOrderFree | src/merging.rs:3-40 | well-formed inputs that are permutations of each other give results that are permutations of each other |
| Merging.IllFormedOrderMatters | src/merging.rs:54-67 | with a box whose x-minimum is above its x-maximum, two orders of the same three boxes give different results |
| Merging.StepKeepsMergeAll | src/merging.rs:17-24 | the engine's two removals and push at the first touching pair leave the final result unchanged and shorten the list |
| Merging.MergeTouching | src/merging.rs:3-39 | the nested-loop engine returns exactly `MergeAll` of its input |
| Text.FindFrom | src/scan.rs:293-294 | the first occurrence of the pattern at or after the start index, or none anywhere after it |
| Text.Find | src/scan.rs:293-294 | the first occurrence of the pattern, or none anywhere |
| Text.FindIsFirstAt | src/scan.rs:293-294 | `find` returns i exactly when i is the first occurrence |
| Text.IndexOf | src/scan.rs:396 | the first index of a character, none exactly when it is absent |
| Text.FindChar | src/scan.rs:396 | finding a one-character pattern gives that character's first index |
| Text.Split | src/scan.rs:180 | a split has at least one piece |
| Text.SplitPiecesFree | src/scan.rs:180 | no piece holds the separator |
| Text.FirstIndex | src/scan.rs:180 | the first position of the separator |
| Text.JoinSplit | src/scan.rs:177-185 | joining the pieces of a split with the separator gives back the input |
| Text.JoinCons | src/scan.rs:266-272 | a join is the first piece, the separator, then the join of the rest |
| Text.SplitCons | src/scan.rs:180 | splitting a separator-free piece, the separator and a rest gives the piece and then the split of the rest |
| Text.SplitAt | src/scan.rs:180 | a split at the first separator is the prefix and then the split of the suffix |
| Text.SplitAtFrom | src/scan.rs:180 | the same, for a tail of the text |
| Text.Repeat | src/main.rs:176-177 | n copies of the character |
| Text.TrimFrom | src/scan.rs:300 | the first non-space index from i on; everything before it is space |
| Text.TrimTo | src/scan.rs:300 | the last non-space end down to lo; everything after it is space |
| Text.Trim | src/scan.rs:300 | a slice of the input with only spaces cut at both ends; empty exactly when the input is all spaces |
| Scan.FirstNonWs | src/scan.rs:308-316 | the first byte outside " \t\n\r", all earlier bytes inside; None exactly when every byte is white space |
| Scan.FirstWs | src/scan.rs:318-326 | always Some: the first white-space byte, all earlier bytes not white space, or the length of the line |
| Scan.QuoteFrom | src/scan.rs:396 | a quote at or after the start index |
| Scan.QuoteFromFirst | src/scan.rs:396 | no quote between the start and the reported one; none at all when nothing is reported |
| Scan.QuoteFromShift | src/scan.rs:396-402 | searching a tail finds the same quote as searching the whole text from the tail's start |
| Scan.QuoteFromIsFind | src/scan.rs:396 | the quote found from `from` on is `find("\"")` of the tail from `from`, shifted back by `from`; none exactly when `find` reports none |
| Scan.DquotsFrom | src/scan.rs:395-405 | a reported pair is two quotes in order at or after the start |
| Scan.DquotsFromFirst | src/scan.rs:395-405 | the pair are the first two quotes from the start on |
| Scan.FindDquots | src/scan.rs:395-405 | a reported pair satisfies a < b, and both positions hold quotes |
| Scan.FindDquotsSpec | src/scan.rs:395-405 | the first two quotes, none between; None exactly when the text holds fewer than two quotes |
| Scan.FindDquotsShift | src/scan.rs:411-413 | `find_dquots` on the rest of the line is the pair from `start` on, shifted |
| Scan.WalkWellFormed | src/scan.rs:415-419 | the walk only adds non-empty ids that hold no quote |
| Scan.IdBetweenQuotes | src/scan.rs:415 | the text between a pair of quotes holds no quote |
| Scan.QuotedIdsWellFormed | src/scan.rs:407-430 | every quoted id is non-empty and quote-free |
| Scan.ReadQuotedIds | src/scan.rs:407-430 | the loop always returns Some of the walk's ids |
| Scan.WalkEnd | src/scan.rs:427 | with no pair left, the walk returns what it has |
| Scan.WalkAt | src/scan.rs:414-425 | at a pair, the walk adds the non-empty id and continues after the closing quote, or stops at the end |
| Scan.SplitFewQuotes | src/scan.rs:395-405 | a text with fewer than two quotes splits into at most two pieces |
| Scan.SplitAtPair | src/scan.rs:414-415 | a text split at its first two quotes is the text before, the text between, and the split of the rest |
| Scan.WalkArePairedPieces | src/scan.rs:407-430 | the walk's ids are the non-empty odd pieces of the text split at quotes, left to right, each closed by a quote |
| Scan.PiecesNoPair | src/scan.rs:427 | a text with no pair has no paired pieces |
| Scan.PiecesStep | src/scan.rs:414-425 | one walk step keeps the walk equal to the paired pieces |
| Scan.WalkNoPair | src/scan.rs:427 | without a pair the walk stops unchanged |
| Scan.WalkPair | src/scan.rs:414-425 | at a pair the walk adds the non-empty id and moves past the closing quote |
| Scan.PiecesAtPair | src/scan.rs:414-421 | the paired pieces at a pair are the id, if non-empty, then those after the closing quote |
| Scan.QuotedIdsArePairedPieces | src/scan.rs:407-430 | the quoted ids are the non-empty pieces between pairs of quotes, in left-to-right order |
| Scan.PackageOfSpec | src/scan.rs:290-304 | a package exists iff the first "package" ends no later than the first ";"; it is the trimmed text between them |
| Scan.JavaPackageFind | src/scan.rs:290-304 | succeeds exactly when the line has a package, writing it to `out`; on failure `out` stays as it was |
| Scan.SkipWs | src/scan.rs:332 | the first index from i on that is not white space; all before it are |
| Scan.SkipToken | src/scan.rs:334 | the first white-space index from i on; none before it is |
| Scan.ClassnameOfSpec | src/scan.rs:328-344 | a name exists iff something other than white space follows the first "class"; it is the trimmed first token after it |
| Scan.ClassnameHasNoWs | src/scan.rs:328-344 | a class name never holds a space, tab, line feed or carriage return |
| Scan.ClassnameAt | src/scan.rs:331-340 | the name is the trimmed token found after the first "class" |
| Scan.SkipWsOfTail | src/scan.rs:332 | `first_non_ws` on the tail from `start`, plus `start`, is the first index past the white space |
| Scan.SkipTokenOfTail | src/scan.rs:334 | `first_ws` on the tail from the name's start, plus that start, is the end of the token |
| Scan.TrimmedTokenHasNoWs | src/scan.rs:340 | trimming a token free of white space keeps it free of white space |
| Scan.ClassnameOfVerticalTab | src/scan.rs:332-340 | a token of a single vertical tab gives an empty class name |
| Scan.JavaClassnameFind | src/scan.rs:328-344 | succeeds exactly when the line has a class name, writing it to `out`; on failure `out` stays as it was |
| Scan.JavaCommentIds | src/scan.rs:354-368 | fires iff the line contains the comment marker with something after it; the ids quoted after the marker |
| Scan.JavaFieldIds | src/scan.rs:370-383 | fires iff the line names VSC_BLOCK_IDS and its first "}" is at least two bytes after its first "{"; the ids quoted between them |
| Scan.JavaFieldId | src/scan.rs:385-393 | fires iff the line names VSC_BLOCK_ID, not VSC_BLOCK_IDS, and has an "="; the ids quoted from the "=" on |
| Scan.FieldProcessorsExclusive | src/scan.rs:346-393 | the two field processors never both fire; every id a line yields is non-empty and quote-free |
| Scan.FirstOfIsEarliest | src/scan.rs:227-233 | a value is found iff some line has one, and it is the earliest such line's |
| Scan.AllIds | src/scan.rs:235-239 | every collected id is non-empty and quote-free |
| Scan.ScanJavaLines | src/scan.rs:214-248 | package from the first line that has one, class name likewise, all ids in line order; missing package, then missing class name, is an error |
| Scan.FirstOfStep | src/scan.rs:227-233 | one more line keeps an earlier find, else takes the new line's |
| Scan.AllIdsStep | src/scan.rs:235-239 | one more line appends its ids |
| Scan.AppendOptions | src/scan.rs:235-239 | appending each processor's ids in turn appends them all at once |
| Scan.PackageIntoVec | src/scan.rs:177-185 | the parts between the periods, in order |
| Scan.RewriteParts | src/scan.rs:258-264 | a last part starting with "block" is dropped, then "blockshape" is appended |
| Scan.Reverse | src/scan.rs:266 | element k of the reverse is element n-1-k |
| Scan.FoldDotted | src/scan.rs:266-272 | the accumulator is a prefix of the result; with no parts the result is the accumulator |
| Scan.FoldDottedIsJoin | src/scan.rs:266-272 | a fold whose first part is non-empty is the "."-join of the parts |
| Scan.DottedStep | src/scan.rs:266-272 | one step of the fold, written as joins: the prefix and the first part, ".", and the join of the rest is the prefix and the join of all parts |
| Scan.RewritePackageAsWritten | src/scan.rs:255-273 | the rewrite as written: the rewritten parts joined in reverse order |
| Scan.ReversePrefix | src/scan.rs:266 | reversing one more element of a prefix puts it first |
| Scan.RewriteAsWrittenReverses | src/scan.rs:258-272 | splitting the as-written result gives the intended parts reversed |
| Scan.RewriteAsWrittenDiffers | src/scan.rs:258-272 | whenever the rewritten parts are two or more and the first is not "blockshape", the as-written result is not the intended package; so also "com", which gives "blockshape.com", not "com.blockshape" |
| Scan.BlockshapePackage | src/scan.rs:258-272 | splitting the intended package gives exactly the rewritten parts in package order |
| Scan.TargetPackage | src/scan.rs:255-273 | the Java file's own package when the target sits next to it; otherwise a package that splits into the rewritten parts in package order |
| Scan.RewritePartsFree | src/scan.rs:258-264 | no rewritten part holds a period |
| Scan.SplitJoin | src/scan.rs:177-185 | splitting a join of period-free parts gives the parts back |
| Scan.FilterBlockmodelsImpl | src/scan.rs:99-115 | None exactly when there is no parent, the parent has no name, or the parent is "block" with no named grandparent; Some(true) exactly when the parent is "block" and the grandparent "models" |
| Scan.FilterBlockmodels | src/scan.rs:95-115 | true iff the parent is "block" and the grandparent "models"; a missing parent or grandparent gives false |
| Scan.FilterBlockstatesImpl | src/scan.rs:121-130 | None exactly when there is no parent or the parent has no name; Some(true) exactly when the parent is "blockstates" |
| Scan.FilterBlockstates | src/scan.rs:117-130 | true iff the parent is "blockstates"; a missing parent gives false |
| Scan.FoldCommaIsJoin | src/scan.rs:148-149 | the fold is ", " followed by the ids joined with ", " |
| Scan.IdsLine | src/scan.rs:148-155 | the line starts with "ids:" and ends with a line feed; with no ids it is the bare "ids:" line |
| Scan.IdsLineSpec | src/scan.rs:148-155 | with ids, "ids: " and the ids joined with ", "; without, the bare "ids:" |

## Left out

- Trigonometry and `f32` arithmetic: coordinates are reals, and sine, cosine and pi are a caller-supplied `Trig`. So no rounding, NaN or infinity is modelled. The `partial_cmp().unwrap()` panic on NaN in the bounding step cannot arise.
- The `expect("0-size vector???")` panic in the bounding step cannot happen: `into_verts` always yields eight vertices, and `Bounds` requires a non-empty list.
- Geometry.Mkindent: does not model `usize` overflow of `level * tab_width`; integers are unbounded.
- `main`, `code`, `usage` and `format_cuboid_expr` (`src/main.rs`): file opening, JSON deserialisation, output and number formatting.
- `src/data.rs`: serde record declarations. `Element`, `Rotation` and the model rotation appear as plain datatypes.
- `discover_files`, `discover_files_rc` and `blacklist_dirs`: directory walking is filesystem I/O.
- `find_bb_target` and `target.exists()`: they query the filesystem. Their outcome enters the model as the `nextTo` flag of `Scan.TargetPackage`.
- Reading the Java file line by line: `Scan.ScanJavaLines` takes the lines as a sequence. I/O errors are not modelled.
- The rest of the `Display` of a block summary (path, package, class name and target lines): only the `ids:` line is modelled.
- Paths are modelled as lists of components (a name, or ".."). Roots, prefixes and "." components are not modelled; a path with no components has no parent.
- Rust's `trim` strips Unicode white space. The model strips only the ASCII white space (tab, line feed, vertical tab, form feed, carriage return, space), since the lines are taken to be ASCII.
- String slicing at a position that is not a character boundary panics in Rust. With one character per byte it cannot happen here.
- `src/merging.rs` and `src/scan.rs` are not part of the built tool: `src/main.rs` declares only `mod data`, so `main` never calls `merge_touching`, `process_java_file` or the path filters. Both files are modelled standalone, over sequences of boxes, lines and path components.
- Merging.MergeAll: the result is proved independent of the input order only for well-formed boxes (`Merging.MergeAllOrderFree`). A box whose minimum exceeds its maximum on some axis can touch two boxes that do not touch each other, and then the order decides the result (`Merging.IllFormedOrderMatters`).
- Scan.TargetPackage: when the target does not sit next to the Java file it returns the corrected package (`Scan.BlockshapePackage`), not the reversed one `process_java_file` would build (`Scan.RewritePackageAsWritten`). That branch is never taken, because `find_bb_target(path, classname, false)` always returns `next_to = true` (`src/scan.rs:196-198`).

## Findings

| source | as written | input that shows it | evidently intended | confidence | as-written member | corrected member |
|---|---|---|---|---|---|---|
| src/scan.rs:266-272 | the rewritten package parts are folded with `iter().rev()`, so the package is written back to front | package "com.example.block" gives "blockshape.example.com" | "com.example.blockshape", the package of the sibling `blockshape` directory (unreachable today, because `find_bb_target` is called with `false`) | not executed | Scan.RewritePackageAsWritten (with Scan.RewriteAsWrittenDiffers) | Scan.BlockshapePackage |
