# Rajawali ray picking and MD5 material loading, modelled in Dafny

This project models three classes of the Rajawali 3D engine for Android.

- **`Intersector`** holds the engine's static intersection tests. It covers a ray against a
  plane, a triangle, a sphere, and an axis-aligned box (Woo's slab algorithm).
- **`RayPickingVisitor`** visits scene nodes and keeps the visible, in-frustum object whose
  bounding volume the pick ray meets. When several objects are met, it keeps the one with the
  smallest z position.
- **`LoaderMD5Material`** reads a Doom 3 `.mtr` material file and configures a `Material`. The
  first line names the material. Every later line contributes a `key value` property, and the
  last line with a given key wins. A diffuse map hides an ambient (`qer_editorimage`) map. Each
  key whose texture file exists becomes a texture of the matching kind, with a cleaned name.
  Lighting and shading methods are set from which keys are present.

Files:

- `geometry.dfy`: the vector algebra the three classes rely on (`Vector3`), plus `Option`.
- `intersector.dfy`: the four intersection tests.
- `picking.dfy`: the visitor.
- `md5material.dfy`: the loader.

Modelling choices:

- **Numbers.** Coordinates are `real`, exact arithmetic standing in for `double`.
- **Square roots.** `Math.sqrt` is a parameter `sqrt` with the precondition `IsSqrt(sqrt)`: it
  returns the non-negative root of every non-negative argument.
- **Out-parameters.** Each intersection test returns its hit point as a value (`Option<Vec3>`
  or `SphereHit`) instead of writing into an out-parameter.
- **The box test.** It is an imperative method over three-element arrays, with the same four
  loops as the source. It is proved equal to the function `RayBox`. `RayBox` is proved sound
  (for a well-formed box, any hit lies in the box and on the segment) and complete (if the segment meets the box, a
  hit is reported, and it is no farther than any point of the segment in the box).
- **The visitor.** It is a class whose `Apply` updates its fields. It is specified by the pure
  step function `Step`, and `Run` folds `Step` over a node sequence. Lemmas show that the
  picked object is the first visited candidate with the smallest z. They also show that the
  hit point is the one written by the last successful box test.
- **The loader.**
  - Lines and the property map are `seq` and `map` values.
  - The `Material` is a class whose setters update its fields.
  - `parse` is split into its stages: `ReadProps`, `Configure`, `AddTextures` and `AddEntry`.
  - The file is `Option<seq<string>>`, where `None` means it cannot be opened.
  - The texture files that exist are a parameter set, `existing`.
  - The random UUIDs are a parameter function `uuids`, indexed by the position of the entry
    in the iteration order.
  - `HashMap` iteration order is any enumeration of the keys, chosen nondeterministically.

Behaviour of the code that a caller may not expect (the model follows the code):

- **Sphere hit point.** `intersectRaySphere` assigns its hit point to its own parameter
  (Intersector.java:160 and :163), so the caller's vector is never updated. In the model,
  `IntersectRaySphere` computes the point. `Step` leaves the visitor's hit point unchanged after
  a sphere test.
- **Visitor hit point.** The visitor's hit point is written by every successful box test,
  including tests of objects that are not picked (RayPickingVisitor.java:56 and :65-67). It is
  therefore not necessarily the hit point of the picked object; `HitPointOfUnpicked` shows a
  two-object scene where it is not.
- **Degenerate sphere ray.** For a ray with `rayStart == rayEnd`, the normalised direction is
  zero, so a, b, the discriminant and the stable root q are all zero, while c keeps its value.
  Java's `t0 = q` is then 0 and `c / q` is not a finite number. When c > 0 it is +Infinity,
  so t0 = 0 stays the smaller root and is reported. When c < 0 it is -Infinity, so the roots
  are swapped and t1 = 0 is reported by the `t0 < 0` branch (Intersector.java:148-161). When
  c == 0 it is NaN, every comparison with it is false, and t0 = 0 is reported. In every case
  the sphere test reports a hit at distance 0 whatever the sphere (`SphereDegenerateRay`).
- **Unused material name.** The material name computed at LoaderMD5Material.java:81 is never
  used. The model computes it (`MaterialName`) and proves what it is, but it does not affect
  the material.

## Model

| member | source | states |
|---|---|---|
| Geometry.Normalize | rajawali/src/main/java/org/rajawali3d/util/Intersector.java:171-172 | the returned magnitude is the non-negative length; a zero vector stays zero with magnitude 0; otherwise the result is a unit vector that, scaled by the magnitude, gives back the input |
| Geometry.Distance | rajawali/src/main/java/org/rajawali3d/util/Intersector.java:250 | the distance is non-negative and its square is the squared length of the difference |
| Geometry.DistanceSqAlongLine | rajawali/src/main/java/org/rajawali3d/util/Intersector.java:125-127 | the squared distance from a point on the line to the center is the quadratic in t whose coefficients the sphere test computes |
| Intersector.IntersectRayPlane | rajawali/src/main/java/org/rajawali3d/util/Intersector.java:44-59 | a reported hit lies on the half-line from rayStart through rayEnd; for a non-parallel ray it lies on the plane; for a parallel ray there is a hit iff the start is classified ONPLANE, and the hit is the start |
| Intersector.PlaneParameter | rajawali/src/main/java/org/rajawali3d/util/Intersector.java:48 | the parameter t computed by the source puts the point exactly on the plane |
| Intersector.PlaneHitComplete | rajawali/src/main/java/org/rajawali3d/util/Intersector.java:44-52 | every non-negative parameter that reaches the plane of a non-parallel ray is the reported hit |
| Intersector.ParallelRayKeepsDistance | rajawali/src/main/java/org/rajawali3d/util/Intersector.java:53-57 | a ray parallel to the plane keeps its start's signed distance, so it meets the plane only when it starts on it |
| Intersector.PlaneHitExact | rajawali/src/main/java/org/rajawali3d/util/Intersector.java:44-59 | with an exact side classification, the test reports a hit iff some point of the half-line lies on the plane |
| Intersector.PlaneHitBeyondEnd | rajawali/src/main/java/org/rajawali3d/util/Intersector.java:48-52 | the plane test treats the ray as a half-line: a plane beyond rayEnd is still hit |
| Intersector.SolveGram | rajawali/src/main/java/org/rajawali3d/util/Intersector.java:90-94 | no solution iff the determinant is zero; otherwise (u, v) solves the 2x2 Gram system |
| Intersector.SolveBarycentric | rajawali/src/main/java/org/rajawali3d/util/Intersector.java:80-94 | no solution iff the edges' Gram determinant is zero; otherwise (u, v) solves the system of dot products |
| Intersector.GramIsCrossLength | rajawali/src/main/java/org/rajawali3d/util/Intersector.java:90-91 | the determinant is the squared length of the edges' cross product, so it is zero exactly for a degenerate triangle |
| Intersector.SolveBarycentricRecovers | rajawali/src/main/java/org/rajawali3d/util/Intersector.java:80-94 | for a non-degenerate triangle, the point with barycentric coordinates (u, v) is solved back to exactly (u, v) |
| Intersector.ProjectionOfSolution | rajawali/src/main/java/org/rajawali3d/util/Intersector.java:93-96 | the solved (u, v) is the projection of the hit point onto the triangle's plane |
| Intersector.IntersectRayTriangle | rajawali/src/main/java/org/rajawali3d/util/Intersector.java:74-101 | no plane hit or a degenerate triangle gives no hit; a hit is the plane hit and projects into the unit triangle |
| Intersector.TriangleHitExact | rajawali/src/main/java/org/rajawali3d/util/Intersector.java:74-101 | when the plane hit is the triangle point with coordinates (u, v), the triangle test hits iff u >= 0, v >= 0 and u + v <= 1 |
| Intersector.SphereQuadratic | rajawali/src/main/java/org/rajawali3d/util/Intersector.java:125-127 | the coefficients a, b and c of the sphere test; no contract of its own, its meaning is stated by SphereQuadraticEval (the quadratic at t is the squared distance of the ray point to the center minus radius²) |
| Intersector.SphereQuadraticEval | rajawali/src/main/java/org/rajawali3d/util/Intersector.java:125-127 | the quadratic's value at t is the squared distance of the point at t from the center, minus radius squared |
| Intersector.NearestRoot | rajawali/src/main/java/org/rajawali3d/util/Intersector.java:135-165 | a reported distance is non-negative |
| Intersector.StableRoot | rajawali/src/main/java/org/rajawali3d/util/Intersector.java:138-141 | the stable root q, chosen by the sign of b; no contract of its own, its meaning is stated by StableRoots (q and c/q are the two roots) and StableRootZero (q is 0 only when c is 0) |
| Intersector.StableRoots | rajawali/src/main/java/org/rajawali3d/util/Intersector.java:135-145 | for a non-zero stable root q, both q and c/q are roots of the monic quadratic, with product c and sum -b |
| Intersector.StableRootZero | rajawali/src/main/java/org/rajawali3d/util/Intersector.java:136-145 | the stable root is zero only when c is zero |
| Intersector.NearestRootIsRoot | rajawali/src/main/java/org/rajawali3d/util/Intersector.java:144-165 | the reported distance is a root of the quadratic |
| Intersector.NearestRootIsNearest | rajawali/src/main/java/org/rajawali3d/util/Intersector.java:147-165 | if the quadratic has a non-negative root, a distance is reported and it is no larger than that root |
| Intersector.IntersectRaySphere | rajawali/src/main/java/org/rajawali3d/util/Intersector.java:112-166 | a hit has a non-negative distance, and its point lies along the normalised direction at that distance |
| Intersector.SphereAlong | rajawali/src/main/java/org/rajawali3d/util/Intersector.java:125-165 | for a given direction, a hit has a non-negative distance and lies on the ray at that distance |
| Intersector.UnitDirection | rajawali/src/main/java/org/rajawali3d/util/Intersector.java:115-116 | for a proper ray the normalised direction has length 1, so a = 1 |
| Intersector.RootOnSurface | rajawali/src/main/java/org/rajawali3d/util/Intersector.java:125-127 | a root of the quadratic for a unit direction is a point on the sphere |
| Intersector.AlongOnSurface | rajawali/src/main/java/org/rajawali3d/util/Intersector.java:125-165 | a hit along a unit direction lies on the sphere |
| Intersector.SphereHitOnSurface | rajawali/src/main/java/org/rajawali3d/util/Intersector.java:112-166 | for a proper ray, the reported point lies on the sphere's surface |
| Intersector.SphereHitNearest | rajawali/src/main/java/org/rajawali3d/util/Intersector.java:112-166 | if the ray reaches the surface at some distance t >= 0, a hit is reported at a distance no greater than t |
| Intersector.SphereDegenerateRay | rajawali/src/main/java/org/rajawali3d/util/Intersector.java:113-116 | a ray whose start equals its end hits every sphere at its start, at distance 0 |
| Intersector.ZeroDirectionHits | rajawali/src/main/java/org/rajawali3d/util/Intersector.java:125-165 | with a zero direction, the root computation reports distance 0 at the start |
| Intersector.SphereHitExample | rajawali/src/main/java/org/rajawali3d/util/Intersector.java:112-166 | a ray from z = 10 toward z = -10 meets the unit sphere at the origin at distance 9, at (0, 0, 1) |
| Intersector.SphereHitFromInside | rajawali/src/main/java/org/rajawali3d/util/Intersector.java:158-161 | a ray starting at the center reports the far root, the exit point at distance 1 |
| Intersector.SlabQuadrant | rajawali/src/main/java/org/rajawali3d/util/Intersector.java:191-204 | the origin is classed MIDDLE on an axis iff it lies within the box's range on that axis |
| Intersector.QuadrantAt | rajawali/src/main/java/org/rajawali3d/util/Intersector.java:189-205 | the quadrant of an axis is MIDDLE iff the origin's coordinate on it is in range |
| Intersector.EntryTimes | rajawali/src/main/java/org/rajawali3d/util/Intersector.java:215-221 | maxT per axis, -1 on a MIDDLE or parallel axis; its ensures only lists the entries, and their meaning is stated by SlabCrossing (a non-negative entry lands on the candidate plane) and SlabEntry (it is the distance at which the ray enters the slab); DistancesToPlanes is proved to compute it |
| Intersector.FirstMax | rajawali/src/main/java/org/rajawali3d/util/Intersector.java:224-228 | the chosen index holds the largest distance, and no earlier index holds an equal one |
| Intersector.BoxPoint | rajawali/src/main/java/org/rajawali3d/util/Intersector.java:234-245 | the candidate point; its ensures only lists the coordinates, and its meaning is stated by PointOnFace (at a non-negative chosen distance it is the ray point at that distance); CandidatePoint is proved to compute it |
| Intersector.FindCandidatePlanes | rajawali/src/main/java/org/rajawali3d/util/Intersector.java:187-205 | fills quadrant and candidatePlane per axis, and reports inside iff the origin is in the box |
| Intersector.DistancesToPlanes | rajawali/src/main/java/org/rajawali3d/util/Intersector.java:214-221 | fills maxT with the per-axis entry distances |
| Intersector.LargestDistance | rajawali/src/main/java/org/rajawali3d/util/Intersector.java:223-228 | returns the first index of the largest distance |
| Intersector.CandidatePoint | rajawali/src/main/java/org/rajawali3d/util/Intersector.java:230-247 | returns the candidate point iff its off-axis coordinates are within the box, and nothing otherwise |
| Intersector.RayBox | rajawali/src/main/java/org/rajawali3d/util/Intersector.java:169-256 | the box test as a function of the ray; no contract of its own, its meaning is stated by BoxHitSound (a hit on a well-formed box lies in the box and on the segment) and BoxHitComplete (a segment meeting the box gives a hit no farther than any of its points in the box) |
| Intersector.WooAlong | rajawali/src/main/java/org/rajawali3d/util/Intersector.java:186-255 | the slab algorithm once the direction is normalised; no contract of its own, its meaning is stated by WooSound and WooComplete (from outside, a hit iff some box point lies within rayLength, and it is the nearest such point) |
| Intersector.IntersectRayBox | rajawali/src/main/java/org/rajawali3d/util/Intersector.java:169-256 | reports a hit iff RayBox finds one; the hit point becomes that point and stays unchanged on a miss |
| Intersector.BoxHitSound | rajawali/src/main/java/org/rajawali3d/util/Intersector.java:169-256 | for a well-formed box, a reported hit lies in the box and on the segment from rayStart to rayEnd |
| Intersector.BoxHitComplete | rajawali/src/main/java/org/rajawali3d/util/Intersector.java:169-256 | if the segment has a point in the box at fraction lambda, a hit is reported no farther along than lambda |
| Intersector.WooSound | rajawali/src/main/java/org/rajawali3d/util/Intersector.java:214-255 | for a start outside the box, a hit is a point of the box at a distance between 0 and rayLength |
| Intersector.WooComplete | rajawali/src/main/java/org/rajawali3d/util/Intersector.java:214-255 | for a start outside the box, any point of the box within rayLength is matched by a hit no farther away |
| Intersector.AllAxesEntry | rajawali/src/main/java/org/rajawali3d/util/Intersector.java:215-231 | when the ray is in the box at distance s, every axis's entry distance is at most s, and each non-MIDDLE axis has a positive one |
| Intersector.AxisEntry | rajawali/src/main/java/org/rajawali3d/util/Intersector.java:215-221 | on one axis, being in range at distance s bounds that axis's entry distance by s |
| Intersector.AxisStays | rajawali/src/main/java/org/rajawali3d/util/Intersector.java:234-242 | an axis in range at distance s is in range at every distance between its entry distance and s |
| Intersector.PointOnFace | rajawali/src/main/java/org/rajawali3d/util/Intersector.java:236-244 | at a non-negative chosen distance, the reconstructed point is the ray's point at that distance |
| Intersector.SlabCrossing | rajawali/src/main/java/org/rajawali3d/util/Intersector.java:217-218 | a non-negative entry distance comes from a non-MIDDLE, non-parallel axis and lands on the candidate plane |
| Intersector.SlabFace | rajawali/src/main/java/org/rajawali3d/util/Intersector.java:191-202 | a candidate plane of a well-formed box lies within the box's range |
| Intersector.SlabEntry | rajawali/src/main/java/org/rajawali3d/util/Intersector.java:215-221 | a ray in a slab at distance s has an entry distance at most s, and it is positive when the origin is outside the slab |
| Intersector.SlabStays | rajawali/src/main/java/org/rajawali3d/util/Intersector.java:238-241 | a ray in a slab at distance s stays in it from its entry distance up to s |
| Intersector.SegmentToLine | rajawali/src/main/java/org/rajawali3d/util/Intersector.java:171-172 | a fraction of the segment is a distance along the normalised direction, within rayLength |
| Intersector.SegmentFraction | rajawali/src/main/java/org/rajawali3d/util/Intersector.java:249-251 | a point within rayLength along the direction lies on the segment |
| Intersector.DistanceAlong | rajawali/src/main/java/org/rajawali3d/util/Intersector.java:250 | along a unit direction, the distance from the start to the point at t is t |
| Picking.TestsFor | rajawali/src/main/java/org/rajawali3d/visitors/RayPickingVisitor.java:65-71 | the visitor's two tests are the box and sphere intersection tests with its ray |
| Picking.CandidateMeets | rajawali/src/main/java/org/rajawali3d/visitors/RayPickingVisitor.java:40-60 | a considered object is a candidate iff the sphere test hits its sphere when it has one, and otherwise iff the box test hits its box |
| Picking.Adopt | rajawali/src/main/java/org/rajawali3d/visitors/RayPickingVisitor.java:46-48 | the pick becomes the object iff nothing was picked or the object's z is strictly smaller; otherwise it stays |
| Picking.Step | rajawali/src/main/java/org/rajawali3d/visitors/RayPickingVisitor.java:34-63 | other nodes, invisible objects and objects out of the frustum change nothing; a failed test keeps the pick; a candidate with a smaller z (or the first one) becomes the pick; only a successful box test moves the hit point |
| Picking.Run | rajawali/src/main/java/org/rajawali3d/visitors/RayPickingVisitor.java:34-63 | the state after apply has visited the nodes in order; no contract of its own, its meaning is stated by RunSnoc, RunPicksFirstNearest (the pick is the first visited candidate with the smallest z) and RunHitPoint (the hit point is that of the last successful box test) |
| Picking.RunSnoc | rajawali/src/main/java/org/rajawali3d/visitors/RayPickingVisitor.java:34-63 | visiting one more node applies one more step |
| Picking.FirstNearestUnique | rajawali/src/main/java/org/rajawali3d/visitors/RayPickingVisitor.java:46-48 | the first candidate with the smallest z is unique |
| Picking.RunPicksFirstNearest | rajawali/src/main/java/org/rajawali3d/visitors/RayPickingVisitor.java:34-63 | nothing is picked iff no visited node is a candidate; otherwise the pick is the first candidate with the smallest z |
| Picking.RunHitPoint | rajawali/src/main/java/org/rajawali3d/visitors/RayPickingVisitor.java:31-67 | with no successful box test the hit point stays at the origin; otherwise it is the last successful box test's point |
| Picking.LastBoxHitExists | rajawali/src/main/java/org/rajawali3d/visitors/RayPickingVisitor.java:56-67 | there is a last successful box test iff there is any successful box test |
| Picking.HitPointOfUnpicked | rajawali/src/main/java/org/rajawali3d/visitors/RayPickingVisitor.java:56-67 | with two boxed objects hit, near visited before far, the near one is picked but the hit point is the far one's |
| Picking.RayPickingVisitor.constructor | rajawali/src/main/java/org/rajawali3d/visitors/RayPickingVisitor.java:28-32 | stores the ray; the hit point is the zero vector and nothing is picked |
| Picking.RayPickingVisitor.Apply | rajawali/src/main/java/org/rajawali3d/visitors/RayPickingVisitor.java:34-63 | the new hit point and pick are one Step from the old ones, and the node is recorded as visited |
| Picking.RayPickingVisitor.IntersectsWithBox | rajawali/src/main/java/org/rajawali3d/visitors/RayPickingVisitor.java:65-67 | reports the box test and writes the hit point only on a hit |
| Picking.RayPickingVisitor.IntersectsWithSphere | rajawali/src/main/java/org/rajawali3d/visitors/RayPickingVisitor.java:69-71 | reports the sphere test and leaves the hit point unchanged |
| Picking.RayPickingVisitor.GetPickedObject | rajawali/src/main/java/org/rajawali3d/visitors/RayPickingVisitor.java:73-75 | returns none iff no visited node was a candidate, and otherwise the first visited candidate with the smallest z |
| MD5Material.TrimStart | rajawali/src/main/java/org/rajawali3d/loader/md5/LoaderMD5Material.java:78 | the result is no longer than the input and starts with a character above space; an input already starting so is unchanged |
| MD5Material.TrimEnd | rajawali/src/main/java/org/rajawali3d/loader/md5/LoaderMD5Material.java:78 | the result is a prefix of the input ending with a character above space |
| MD5Material.Trim | rajawali/src/main/java/org/rajawali3d/loader/md5/LoaderMD5Material.java:78 | the result is no longer than the input and has no character <= space at either end; such an input is unchanged |
| MD5Material.TrimStartCuts | rajawali/src/main/java/org/rajawali3d/loader/md5/LoaderMD5Material.java:78 | TrimStart keeps a suffix of the input and every character it cuts is at most U+0020 |
| MD5Material.TrimEndCuts | rajawali/src/main/java/org/rajawali3d/loader/md5/LoaderMD5Material.java:78 | every character TrimEnd cuts from the end is at most U+0020 |
| MD5Material.TrimIsMiddle | rajawali/src/main/java/org/rajawali3d/loader/md5/LoaderMD5Material.java:78 | the trimmed line is a contiguous slice of the line, and every character before or after that slice is at most U+0020 (with Trim's solid ends, this is exactly String.trim) |
| MD5Material.TokenLength | rajawali/src/main/java/org/rajawali3d/loader/md5/LoaderMD5Material.java:78 | the first token is non-empty, free of delimiters, and followed by a delimiter or the end |
| MD5Material.Tokens | rajawali/src/main/java/org/rajawali3d/loader/md5/LoaderMD5Material.java:86 | every token is a non-empty run of non-delimiters |
| MD5Material.Split | rajawali/src/main/java/org/rajawali3d/loader/md5/LoaderMD5Material.java:78 | a string without delimiters (the empty one included) splits into itself; one starting with a non-delimiter splits into its tokens; one starting with a delimiter splits into an empty string followed by its tokens, or into nothing when it has no token |
| MD5Material.SingleToken | rajawali/src/main/java/org/rajawali3d/loader/md5/LoaderMD5Material.java:86 | a non-empty string without delimiters is its only token |
| MD5Material.TokensOfToken | rajawali/src/main/java/org/rajawali3d/loader/md5/LoaderMD5Material.java:86 | a token followed by a delimiter or the end is split off as the first token |
| MD5Material.TokensSkip | rajawali/src/main/java/org/rajawali3d/loader/md5/LoaderMD5Material.java:86 | a leading delimiter adds no token |
| MD5Material.TokensOfJoin | rajawali/src/main/java/org/rajawali3d/loader/md5/LoaderMD5Material.java:86 | splitting tokens joined by a delimiter gives back the tokens |
| MD5Material.MaterialName | rajawali/src/main/java/org/rajawali3d/loader/md5/LoaderMD5Material.java:75-81 | a name contains no space or slash; a blank first line gives the empty name |
| MD5Material.SplitJoin | rajawali/src/main/java/org/rajawali3d/loader/md5/LoaderMD5Material.java:86 | a line of words separated by single spaces splits into those words |
| MD5Material.MaterialNameIsLastWord | rajawali/src/main/java/org/rajawali3d/loader/md5/LoaderMD5Material.java:78-81 | the name of a line of words is its last word |
| MD5Material.MaterialNameIsLastToken | rajawali/src/main/java/org/rajawali3d/loader/md5/LoaderMD5Material.java:78-81 | the name is the last space-or-slash token; empty for a blank line; absent for a line made only of slashes |
| MD5Material.MaterialKeywordOptional | rajawali/src/main/java/org/rajawali3d/loader/md5/LoaderMD5Material.java:80-81 | "material NAME" and "NAME" both name the material NAME |
| MD5Material.LineEntry | rajawali/src/main/java/org/rajawali3d/loader/md5/LoaderMD5Material.java:86-89 | the property a line contributes; no contract of its own, its meaning is stated by LineEntryIsFirstTwoTokens (an entry iff the trimmed line has two or more tokens, mapping the first to the second) |
| MD5Material.LineEntryIsFirstTwoTokens | rajawali/src/main/java/org/rajawali3d/loader/md5/LoaderMD5Material.java:86-89 | a line gives an entry iff it has at least two tokens, and the entry maps the first token to the second |
| MD5Material.LineEntryOfWords | rajawali/src/main/java/org/rajawali3d/loader/md5/LoaderMD5Material.java:86-89 | a line "key value ..." gives the entry key -> value |
| MD5Material.LineEntries | rajawali/src/main/java/org/rajawali3d/loader/md5/LoaderMD5Material.java:84-90 | one entry or none per line read |
| MD5Material.LineEntriesAt | rajawali/src/main/java/org/rajawali3d/loader/md5/LoaderMD5Material.java:84-90 | the entry at position i is the entry of line i |
| MD5Material.PropsOf | rajawali/src/main/java/org/rajawali3d/loader/md5/LoaderMD5Material.java:84-90 | the map the puts of the lines build; no contract of its own, its meaning is stated by PropsLastWins (a key is present iff some line has it, with the value of the last such line) and PropsSnoc |
| MD5Material.PropsLastWins | rajawali/src/main/java/org/rajawali3d/loader/md5/LoaderMD5Material.java:84-90 | a key is in the map iff some line has it, and its value is that of the last such line |
| MD5Material.PropsSnoc | rajawali/src/main/java/org/rajawali3d/loader/md5/LoaderMD5Material.java:89 | one more line puts its entry into the map built so far |
| MD5Material.PutLine | rajawali/src/main/java/org/rajawali3d/loader/md5/LoaderMD5Material.java:86-89 | putting a line's entry is the source's put of tokens[0] -> tokens[1] when there are more than one token |
| MD5Material.ReadProps | rajawali/src/main/java/org/rajawali3d/loader/md5/LoaderMD5Material.java:66-90 | the loop over the lines after the first builds exactly the map of their entries |
| MD5Material.Entries | rajawali/src/main/java/org/rajawali3d/loader/md5/LoaderMD5Material.java:100-102 | the ambient key is dropped iff the diffuse key is present; every other key and every value is kept |
| MD5Material.TextureFor | rajawali/src/main/java/org/rajawali3d/loader/md5/LoaderMD5Material.java:117-121 | diffusemap and qer_editorimage give a plain texture, specularmap a specular map, bumpmap a normal map, any other key none |
| MD5Material.StripNonWord | rajawali/src/main/java/org/rajawali3d/loader/md5/LoaderMD5Material.java:150 | the result has only word characters and is no longer than the input; a string of word characters is unchanged |
| MD5Material.StripNonWordChar | rajawali/src/main/java/org/rajawali3d/loader/md5/LoaderMD5Material.java:150 | one character is kept iff it is a word character |
| MD5Material.StripNonWordAppend | rajawali/src/main/java/org/rajawali3d/loader/md5/LoaderMD5Material.java:150 | stripping a concatenation strips each part, so the result is exactly the word characters of the input, in order |
| MD5Material.CleanName | rajawali/src/main/java/org/rajawali3d/loader/md5/LoaderMD5Material.java:147-156 | the result is non-empty word characters not starting with a digit; it is the stripped name when that qualifies, and TEX_ plus the stripped UUID otherwise |
| MD5Material.CleanNameIdempotent | rajawali/src/main/java/org/rajawali3d/loader/md5/LoaderMD5Material.java:147-156 | cleaning a clean name changes nothing, whatever the UUID |
| MD5Material.Material.constructor | rajawali/src/main/java/org/rajawali3d/loader/md5/LoaderMD5Material.java:60 | a new material has no textures and no diffuse or specular method |
| MD5Material.Material.AddTexture | rajawali/src/main/java/org/rajawali3d/loader/md5/LoaderMD5Material.java:125 | the texture (possibly null) is appended and nothing else changes |
| MD5Material.Material.SetDiffuseMethod | rajawali/src/main/java/org/rajawali3d/loader/md5/LoaderMD5Material.java:134 | sets the diffuse method |
| MD5Material.Material.SetSpecularMethod | rajawali/src/main/java/org/rajawali3d/loader/md5/LoaderMD5Material.java:137 | sets the specular method |
| MD5Material.Material.EnableLighting | rajawali/src/main/java/org/rajawali3d/loader/md5/LoaderMD5Material.java:139 | sets whether lighting is enabled |
| MD5Material.Material.SetColorInfluence | rajawali/src/main/java/org/rajawali3d/loader/md5/LoaderMD5Material.java:140 | sets the colour influence |
| MD5Material.TexturePath | rajawali/src/main/java/org/rajawali3d/loader/md5/LoaderMD5Material.java:106 | the texture file resolved against the material file's directory; no contract of its own, its meaning is stated by FileNameOfValue and FileNameOfNestedValue (its file name is the last segment of the value) |
| MD5Material.FileName | rajawali/src/main/java/org/rajawali3d/loader/md5/LoaderMD5Material.java:115 | File.getName: the last non-empty slash-separated segment of the path, which contains no slash; FileNameOfValue and FileNameOfNestedValue state that a value `name` or `folder/name` gives `name` |
| MD5Material.TokensAppend | rajawali/src/main/java/org/rajawali3d/loader/md5/LoaderMD5Material.java:106-115 | a token appended after a delimiter becomes the last token |
| MD5Material.FileNameOfValue | rajawali/src/main/java/org/rajawali3d/loader/md5/LoaderMD5Material.java:106-115 | the name of the file for a value without slashes is that value |
| MD5Material.FileNameOfNestedValue | rajawali/src/main/java/org/rajawali3d/loader/md5/LoaderMD5Material.java:106-115 | the name of the file for a value `folder/name` is `name`, the last segment |
| MD5Material.TextureAt | rajawali/src/main/java/org/rajawali3d/loader/md5/LoaderMD5Material.java:114-121 | a texture is made iff the key is one of the four texture keys; it has that key's kind, the file's path and a clean name |
| MD5Material.Contribution | rajawali/src/main/java/org/rajawali3d/loader/md5/LoaderMD5Material.java:106-130 | an entry adds one texture (possibly null) iff its file exists, and nothing otherwise |
| MD5Material.Added | rajawali/src/main/java/org/rajawali3d/loader/md5/LoaderMD5Material.java:104-131 | the textures passed to addTexture when the keys are visited in a given order; no contract of its own, its meaning is stated by AddedSound and AddedComplete (exactly the textures of the visited keys whose files exist) |
| MD5Material.AddedSound | rajawali/src/main/java/org/rajawali3d/loader/md5/LoaderMD5Material.java:104-131 | every added texture is the texture of some visited key whose file exists |
| MD5Material.AddedComplete | rajawali/src/main/java/org/rajawali3d/loader/md5/LoaderMD5Material.java:104-131 | every visited key whose file exists has its texture added |
| MD5Material.AddEntry | rajawali/src/main/java/org/rajawali3d/loader/md5/LoaderMD5Material.java:105-130 | the material's textures grow by exactly the entry's contribution |
| MD5Material.IterationOrder | rajawali/src/main/java/org/rajawali3d/loader/md5/LoaderMD5Material.java:104 | the order lists every key of the map exactly once |
| MD5Material.AddTextures | rajawali/src/main/java/org/rajawali3d/loader/md5/LoaderMD5Material.java:104-131 | the textures grow by the contributions of all entries, in some iteration order |
| MD5Material.Configure | rajawali/src/main/java/org/rajawali3d/loader/md5/LoaderMD5Material.java:100-140 | textures are added for the entries left after the precedence rule; the diffuse method becomes Lambert iff diffusemap is present, the specular method Phong iff specularmap is; lighting is on iff either is present; colour influence is 0 |
| MD5Material.Parse | rajawali/src/main/java/org/rajawali3d/loader/md5/LoaderMD5Material.java:64-143 | a file that cannot be read, or is empty, gives null and leaves the material unchanged; otherwise the same material is returned, configured from the property map of the lines after the first |
| MD5Material.ParseNew | rajawali/src/main/java/org/rajawali3d/loader/md5/LoaderMD5Material.java:58-61 | null iff the file cannot be read or is empty; otherwise a new material configured as Parse states |

## Left out

- Floating point: coordinates are exact reals, so rounding, NaN and infinities are not modelled. The one place where a non-finite value decides the outcome (the sphere test's `c / q` with `q == 0`) is written out as an explicit branch.
- `Math.sqrt` is a parameter characterised by `IsSqrt`; the square root itself is not defined.
- `Plane.set` and `Plane.getPointSide` are not part of this model: the triangle test takes the plane through the three vertices and the start point's side as inputs, and the plane test takes the side as input.
- The vector normalised at Intersector.java:75-76 is never used by the triangle test, so the model leaves it out.
- The static scratch vectors and plane of `Intersector` (lines 28-30, 61-62) are values in the model; the sharing between calls, and the resulting thread-unsafety, is not modelled.
- `BoundingSphere.calculateBounds`/`transform` and `BoundingBox.calculateBounds`/`transform` (RayPickingVisitor.java:42-43, 53-54) and `getTransformedMin`/`getTransformedMax` are not part of this model: an object carries its bounding volume already in world space.
- The scene-graph traversal that calls `apply` is not part of this model; the visitor is driven over any sequence of nodes.
- `Object3D` is reduced to its visibility, frustum flag, z position and bounding volume.
- Reading the file (`FileReader`, `BufferedReader`) is modelled as a given list of lines, with `None` for a file that cannot be opened or read; the logging calls (`RajLog`) are left out.
- `BitmapFactory.decodeFile` is not part of this model: a texture records its kind, name and path, not its pixels.
- `Material.addTexture` and its `TextureException` are not part of this model: the textures passed to `addTexture`, a null one included, are recorded in order.
- `File` is modelled by strings: the texture path is the directory, a slash and the value, with no normalisation and no absolute path; `File.exists` is the parameter set `existing`.
- `UUID.randomUUID` is the parameter function `uuids`, indexed by the entry's position in the iteration order.
- `HashMap` iteration order is unspecified in Java; the model states the textures for some enumeration of the keys and does not fix which.
- MD5Material.Material.constructor: states only the textures and shading methods of a new material, because the initial lighting and colour influence of `Material` are not part of this model.
- MD5Material.Parse: an exception thrown while reading a line after the first (an I/O error mid-file) also yields null in Java; the model only distinguishes a file that cannot be read at all from one it reads fully.
- MD5Material.TrimStart: its own contract states only the shape of the result (no longer, no cut character at its front). That it cuts exactly the leading characters up to U+0020 is stated by TrimStartCuts. The quantifier is kept out of the contract because it makes every proof that unfolds a line's entry far more costly.
- MD5Material.TrimEnd: its own contract states only that the result is a prefix with no cut character at its end. That every character it cuts is at most U+0020 is stated by TrimEndCuts, kept apart for the same reason.
- MD5Material.Trim: its own contract states only the shape of the result (solid ends, and identity on a line with solid ends). That it is the slice of the line between runs of characters up to U+0020 is stated by TrimIsMiddle, kept apart for the same reason.
- MD5Material.LineEntries: its own contract states only the length. That entry i is line i's entry is stated by LineEntriesAt, kept apart for the same reason.
- MD5Material.StripNonWord: its own contract states that the result has only word characters and leaves a word unchanged. That it keeps exactly the word characters, in order, is stated by StripNonWordChar and StripNonWordAppend.
