/**
 * org.rajawali3d.visitors.RayPickingVisitor: a scene visitor that keeps the object its ray
 * picks. The scene traversal is a sequence of `Apply` calls; an object is a record of what
 * `apply` reads from it, with its bounding volumes already in world space.
 *
 * The selection rule is stated over `RayTests`, the answers of the two intersection tests
 * for one fixed ray; `TestsOf` ties them to Intersector's ray-sphere and ray-box tests.
 */
module Picking {
  import opened Wrappers
  import opened Geometry
  import opened Intersector

  /** A BoundingSphere after calculateBounds and transform: getPosition and getRadius. */
  datatype Sphere = Sphere(center: Vec3, radius: real)

  /**
   * What apply reads from an Object3D: isVisible, isInFrustum, getPosition().z, and the
   * geometry's bounding sphere (when it has one) and bounding box.
   */
  datatype Object3D = Object3D(visible: bool, inFrustum: bool, positionZ: real,
                               boundingSphere: Option<Sphere>, boundingBox: Box)

  /** An INode: an Object3D, or any other kind of node. */
  datatype Node = ObjectNode(obj: Object3D) | OtherNode

  /** The visitor's fields mHitPoint and mPickedObject (null is None). */
  datatype PickState = PickState(hitPoint: Vec3, picked: Option<Object3D>)

  /** The state the constructor leaves: a zero hit point and nothing picked. */
  const Initial := PickState(Zero, None)

  /** For one ray: whether it meets a sphere, and the point where it enters a box, if any. */
  datatype RayTests = RayTests(sphere: Sphere -> bool, box: Box -> Option<Vec3>)

  /** `tests` answers as intersectRaySphere and intersectRayBox do for the ray from rayStart to rayEnd. */
  ghost predicate TestsOf(tests: RayTests, rayStart: Vec3, rayEnd: Vec3, sqrt: real -> real) {
    IsSqrt(sqrt) &&
    (forall s: Sphere {:trigger IntersectRaySphere(rayStart, rayEnd, s.center, s.radius, sqrt)} ::
      tests.sphere(s) == IntersectRaySphere(rayStart, rayEnd, s.center, s.radius, sqrt).SphereHit?) &&
    (forall b: Box {:trigger RayBox(b, rayStart, rayEnd, sqrt)} ::
      tests.box(b) == RayBox(b, rayStart, rayEnd, sqrt))
  }

  /** The tests of the ray from rayStart to rayEnd. */
  ghost function TestsFor(rayStart: Vec3, rayEnd: Vec3, sqrt: real -> real): (tests: RayTests)
    requires IsSqrt(sqrt)
    ensures TestsOf(tests, rayStart, rayEnd, sqrt)
  {
    RayTests((s: Sphere) => IntersectRaySphere(rayStart, rayEnd, s.center, s.radius, sqrt).SphereHit?,
             (b: Box) => RayBox(b, rayStart, rayEnd, sqrt))
  }

  /** Line 37: the nodes apply looks at, visible Object3Ds inside the frustum. */
  predicate Considered(node: Node) {
    node.ObjectNode? && node.obj.visible && node.obj.inFrustum
  }

  /** Lines 40-61: the sphere test when the geometry has a bounding sphere, the box test otherwise. */
  predicate Hits(tests: RayTests, o: Object3D) {
    match o.boundingSphere
    case Some(s) => tests.sphere(s)
    case None => tests.box(o.boundingBox).Some?
  }

  /** A node whose object apply would pick if nothing nearer were picked already. */
  predicate Candidate(tests: RayTests, node: Node) {
    Considered(node) && Hits(tests, node.obj)
  }

  /** A node whose box test succeeds and so writes mHitPoint. */
  predicate BoxHit(tests: RayTests, node: Node) {
    Considered(node) && node.obj.boundingSphere.None? && tests.box(node.obj.boundingBox).Some?
  }

  /** With the tests of a ray, a candidate is an object the ray actually meets. */
  lemma CandidateMeets(tests: RayTests, rayStart: Vec3, rayEnd: Vec3, sqrt: real -> real, node: Node)
    requires TestsOf(tests, rayStart, rayEnd, sqrt) && Considered(node)
    ensures node.obj.boundingSphere.Some? ==>
      (Candidate(tests, node) <==>
       IntersectRaySphere(rayStart, rayEnd, node.obj.boundingSphere.value.center,
                          node.obj.boundingSphere.value.radius, sqrt).SphereHit?)
    ensures node.obj.boundingSphere.None? ==>
      (Candidate(tests, node) <==> RayBox(node.obj.boundingBox, rayStart, rayEnd, sqrt).Some?)
  {
    if node.obj.boundingSphere.Some? {
      var s := node.obj.boundingSphere.value;
      assert tests.sphere(s) == IntersectRaySphere(rayStart, rayEnd, s.center, s.radius, sqrt).SphereHit?;
    } else {
      assert tests.box(node.obj.boundingBox) == RayBox(node.obj.boundingBox, rayStart, rayEnd, sqrt);
    }
  }

  /** Lines 46-48 and 57-59: the pick after `o` passed its intersection test. */
  function Adopt(picked: Option<Object3D>, o: Object3D): (r: Option<Object3D>)
    ensures r == picked || r == Some(o)
    ensures r.Some?
    ensures r != picked ==> picked.None? || o.positionZ < picked.value.positionZ
    ensures picked.None? || o.positionZ < picked.value.positionZ ==> r == Some(o)
  {
    if picked.None? || (picked.Some? && o.positionZ < picked.value.positionZ) then Some(o) else picked
  }

  /** apply, lines 34-63, as a function of the visitor's fields. */
  function Step(tests: RayTests, st: PickState, node: Node): (r: PickState)
    // lines 35-37: other nodes, invisible objects and objects outside the frustum change nothing
    ensures !Considered(node) ==> r == st
    // lines 45 and 56: a failed test never changes the pick
    ensures !Candidate(tests, node) ==> r.picked == st.picked
    // lines 46-48 and 57-59: the pick becomes the visited object or stays as it was
    ensures r.picked == st.picked || r.picked == Some(node.obj)
    ensures st.picked.Some? ==> r.picked.Some?
    ensures r.picked != st.picked ==>
      Candidate(tests, node) && (st.picked.None? || node.obj.positionZ < st.picked.value.positionZ)
    ensures Candidate(tests, node) && (st.picked.None? || node.obj.positionZ < st.picked.value.positionZ) ==>
      r.picked == Some(node.obj)
    // lines 56-60 and 65-71: only a successful box test writes the hit point, selected or not
    ensures r.hitPoint == if BoxHit(tests, node) then tests.box(node.obj.boundingBox).value else st.hitPoint
  {
    if !Considered(node) then st
    else
      var o := node.obj;
      match o.boundingSphere
      case Some(s) =>
        if tests.sphere(s) then PickState(st.hitPoint, Adopt(st.picked, o)) else st
      case None =>
        match tests.box(o.boundingBox)
        case Some(p) => PickState(p, Adopt(st.picked, o))
        case None => st
  }

  /** The state after visiting `nodes` in order, starting from `st`. */
  function Run(tests: RayTests, st: PickState, nodes: seq<Node>): PickState {
    if nodes == [] then st
    else Step(tests, Run(tests, st, nodes[..|nodes| - 1]), nodes[|nodes| - 1])
  }

  /** Visiting one more node is one more Step. */
  lemma RunSnoc(tests: RayTests, st: PickState, nodes: seq<Node>, node: Node)
    ensures Run(tests, st, nodes + [node]) == Step(tests, Run(tests, st, nodes), node)
  {
    assert (nodes + [node])[..|nodes|] == nodes;
  }

  /**
   * `k` is the first candidate of least z: no candidate lies nearer, and every candidate
   * before it lies strictly farther.
   */
  ghost predicate FirstNearest(tests: RayTests, nodes: seq<Node>, k: int) {
    0 <= k < |nodes| && Candidate(tests, nodes[k]) &&
    (forall j :: 0 <= j < |nodes| && Candidate(tests, nodes[j]) ==>
      nodes[k].obj.positionZ <= nodes[j].obj.positionZ) &&
    (forall j :: 0 <= j < k && Candidate(tests, nodes[j]) ==>
      nodes[k].obj.positionZ < nodes[j].obj.positionZ)
  }

  /** There is at most one first nearest candidate. */
  lemma FirstNearestUnique(tests: RayTests, nodes: seq<Node>, k: int, m: int)
    requires FirstNearest(tests, nodes, k) && FirstNearest(tests, nodes, m)
    ensures k == m
  {
  }

  /**
   * Over any sequence of visits the visitor picks nothing exactly when no node is a
   * candidate, and otherwise the object of the first candidate of least z.
   */
  lemma {:induction false} RunPicksFirstNearest(tests: RayTests, nodes: seq<Node>)
    ensures Run(tests, Initial, nodes).picked.None? <==> forall j :: 0 <= j < |nodes| ==> !Candidate(tests, nodes[j])
    ensures Run(tests, Initial, nodes).picked.Some? ==>
      exists k :: FirstNearest(tests, nodes, k) && Run(tests, Initial, nodes).picked == Some(nodes[k].obj)
  {
    if nodes == [] {
      return;
    }
    var n := |nodes| - 1;
    var prefix, last := nodes[..n], nodes[n];
    RunPicksFirstNearest(tests, prefix);
    var before := Run(tests, Initial, prefix);
    var after := Run(tests, Initial, nodes);
    assert after == Step(tests, before, last);
    if before.picked.None? {
      assert forall j :: 0 <= j < n ==> !Candidate(tests, prefix[j]);
      if Candidate(tests, last) {
        assert FirstNearest(tests, nodes, n);
      } else {
        assert forall j :: 0 <= j < |nodes| ==> !Candidate(tests, nodes[j]) by {
          forall j | 0 <= j < |nodes| ensures !Candidate(tests, nodes[j]) {
            if j < n {
              assert nodes[j] == prefix[j];
            }
          }
        }
      }
    } else {
      var k :| FirstNearest(tests, prefix, k) && before.picked == Some(prefix[k].obj);
      assert Candidate(tests, nodes[k]);
      if Candidate(tests, last) && last.obj.positionZ < before.picked.value.positionZ {
        assert after.picked == Some(last.obj);
        assert FirstNearest(tests, nodes, n) by {
          forall j | 0 <= j < |nodes| && Candidate(tests, nodes[j])
            ensures last.obj.positionZ <= nodes[j].obj.positionZ
          {
            if j < n {
              assert nodes[j] == prefix[j];
            }
          }
          forall j | 0 <= j < n && Candidate(tests, nodes[j])
            ensures last.obj.positionZ < nodes[j].obj.positionZ
          {
            assert nodes[j] == prefix[j];
          }
        }
      } else {
        assert after.picked == before.picked;
        assert FirstNearest(tests, nodes, k) by {
          forall j | 0 <= j < |nodes| && Candidate(tests, nodes[j])
            ensures nodes[k].obj.positionZ <= nodes[j].obj.positionZ
          {
            if j < n {
              assert nodes[j] == prefix[j];
            }
          }
          forall j | 0 <= j < k && Candidate(tests, nodes[j])
            ensures nodes[k].obj.positionZ < nodes[j].obj.positionZ
          {
            assert nodes[j] == prefix[j];
          }
        }
      }
    }
  }

  /** `j` is the last node whose box test succeeds. */
  ghost predicate LastBoxHit(tests: RayTests, nodes: seq<Node>, j: int) {
    0 <= j < |nodes| && BoxHit(tests, nodes[j]) &&
    forall i :: j < i < |nodes| ==> !BoxHit(tests, nodes[i])
  }

  /**
   * mHitPoint is the entry point of the last successful box test, whether or not that object
   * was picked, and the zero vector while no box test has succeeded.
   */
  lemma {:induction false} RunHitPoint(tests: RayTests, nodes: seq<Node>)
    ensures (forall j :: 0 <= j < |nodes| ==> !BoxHit(tests, nodes[j])) ==> Run(tests, Initial, nodes).hitPoint == Zero
    ensures forall j :: LastBoxHit(tests, nodes, j) ==>
      Run(tests, Initial, nodes).hitPoint == tests.box(nodes[j].obj.boundingBox).value
  {
    if nodes == [] {
      return;
    }
    var n := |nodes| - 1;
    var prefix := nodes[..n];
    RunHitPoint(tests, prefix);
    assert Run(tests, Initial, nodes) == Step(tests, Run(tests, Initial, prefix), nodes[n]);
    if BoxHit(tests, nodes[n]) {
      assert forall j :: LastBoxHit(tests, nodes, j) ==> j == n;
    } else {
      forall j | LastBoxHit(tests, nodes, j) ensures LastBoxHit(tests, prefix, j) {
        assert j < n;
      }
      assert (forall j :: 0 <= j < |nodes| ==> !BoxHit(tests, nodes[j])) ==>
             (forall j :: 0 <= j < n ==> !BoxHit(tests, prefix[j]));
    }
  }

  /** Some node is the last successful box test exactly when some box test succeeds. */
  lemma {:induction false} LastBoxHitExists(tests: RayTests, nodes: seq<Node>)
    ensures (exists j :: LastBoxHit(tests, nodes, j)) <==> exists j :: 0 <= j < |nodes| && BoxHit(tests, nodes[j])
  {
    if nodes == [] {
      return;
    }
    var n := |nodes| - 1;
    if BoxHit(tests, nodes[n]) {
      assert LastBoxHit(tests, nodes, n);
    } else {
      var prefix := nodes[..n];
      LastBoxHitExists(tests, prefix);
      if j :| 0 <= j < |nodes| && BoxHit(tests, nodes[j]) {
        assert BoxHit(tests, prefix[j]);
        var m :| LastBoxHit(tests, prefix, m);
        assert LastBoxHit(tests, nodes, m);
      }
    }
  }

  /**
   * Two boxes on the ray: the nearer is visited first and stays picked, while mHitPoint ends
   * as the entry point of the farther one.
   */
  lemma HitPointOfUnpicked(tests: RayTests, near: Object3D, far: Object3D, p: Vec3, q: Vec3)
    requires near.visible && near.inFrustum && near.boundingSphere.None? && tests.box(near.boundingBox) == Some(p)
    requires far.visible && far.inFrustum && far.boundingSphere.None? && tests.box(far.boundingBox) == Some(q)
    requires near.positionZ < far.positionZ
    ensures Run(tests, Initial, [ObjectNode(near), ObjectNode(far)]) == PickState(q, Some(near))
  {
    RunSnoc(tests, Initial, [], ObjectNode(near));
    assert [] + [ObjectNode(near)] == [ObjectNode(near)];
    RunSnoc(tests, Initial, [ObjectNode(near)], ObjectNode(far));
    assert [ObjectNode(near)] + [ObjectNode(far)] == [ObjectNode(near), ObjectNode(far)];
  }

  class RayPickingVisitor {
    const rayStart: Vec3
    const rayEnd: Vec3
    /** Math.sqrt, used by the intersection tests. */
    const sqrt: real -> real
    /** The answers of the intersection tests for this visitor's ray. */
    ghost const tests: RayTests
    var hitPoint: Vec3
    var pickedObject: Option<Object3D>
    /** The nodes applied so far. */
    ghost var visited: seq<Node>

    ghost predicate Valid()
      reads this
    {
      TestsOf(tests, rayStart, rayEnd, sqrt) &&
      PickState(hitPoint, pickedObject) == Run(tests, Initial, visited)
    }

    /** Lines 28-32: nothing picked yet, and a zero hit point. */
    constructor(rayStart: Vec3, rayEnd: Vec3, sqrt: real -> real)
      requires IsSqrt(sqrt)
      ensures Valid()
      ensures this.rayStart == rayStart && this.rayEnd == rayEnd && this.sqrt == sqrt
      ensures hitPoint == Zero && pickedObject == None && visited == []
    {
      this.rayStart := rayStart;
      this.rayEnd := rayEnd;
      this.sqrt := sqrt;
      tests := TestsFor(rayStart, rayEnd, sqrt);
      hitPoint := Zero;
      pickedObject := None;
      visited := [];
    }

    /** Lines 34-63. */
    method Apply(node: Node)
      requires Valid()
      modifies this
      ensures Valid() && visited == old(visited) + [node]
      ensures PickState(hitPoint, pickedObject) == Step(tests, old(PickState(hitPoint, pickedObject)), node)
    {
      RunSnoc(tests, Initial, visited, node);
      visited := visited + [node];
      if node.OtherNode? {
        return;
      }
      var o := node.obj;
      if !o.visible || !o.inFrustum {
        return;
      }
      if o.boundingSphere.Some? {
        var hit := IntersectsWithSphere(o.boundingSphere.value);
        if hit {
          if pickedObject.None? || o.positionZ < pickedObject.value.positionZ {
            pickedObject := Some(o);
          }
        }
      } else {
        var hit := IntersectsWithBox(o.boundingBox);
        if hit {
          if pickedObject.None? || o.positionZ < pickedObject.value.positionZ {
            pickedObject := Some(o);
          }
        }
      }
    }

    /** Lines 65-67: the box test, which writes mHitPoint when it succeeds. */
    method IntersectsWithBox(bbox: Box) returns (hit: bool)
      requires TestsOf(tests, rayStart, rayEnd, sqrt)
      modifies this`hitPoint
      ensures hit == tests.box(bbox).Some?
      ensures hitPoint == if hit then tests.box(bbox).value else old(hitPoint)
    {
      hit, hitPoint := IntersectRayBox(bbox, rayStart, rayEnd, hitPoint, sqrt);
    }

    /** Lines 69-71: the sphere test; the point it computes never reaches mHitPoint. */
    method IntersectsWithSphere(bsphere: Sphere) returns (hit: bool)
      requires TestsOf(tests, rayStart, rayEnd, sqrt)
      ensures hit == tests.sphere(bsphere)
    {
      hit := IntersectRaySphere(rayStart, rayEnd, bsphere.center, bsphere.radius, sqrt).SphereHit?;
    }

    /** Lines 73-75: the first nearest candidate visited so far, or None if there is none. */
    method GetPickedObject() returns (picked: Option<Object3D>)
      requires Valid()
      ensures picked == pickedObject
      ensures picked.None? <==> forall j :: 0 <= j < |visited| ==> !Candidate(tests, visited[j])
      ensures picked.Some? ==> exists k :: FirstNearest(tests, visited, k) && picked == Some(visited[k].obj)
    {
      RunPicksFirstNearest(tests, visited);
      picked := pickedObject;
    }
  }
}
