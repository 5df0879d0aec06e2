/** Vertex and box geometry of the converter: the validated constructors of
    `AABox`, `Vec3` and `Axis`, vector arithmetic, the eight corners of a box,
    rotation of a vertex set about a pivot, and the approximation of one
    (possibly rotated) model element by an axis-aligned box.

    Coordinates are reals. The sine, cosine and pi the source takes from the
    `f32` library are fields of a `Trig` value passed in by the caller, so every
    structural fact below holds for any trigonometry whatsoever. */
module Geometry {
  import opened Wrappers
  import Text

  /** The two fatal input errors of the source (it panics on both). */
  datatype Error = MalformedVector | InvalidAxis

  datatype Axis = X | Y | Z

  datatype Vec3 = Vec3(x: real, y: real, z: real) {
    /** The coordinate that `axis` selects. */
    function At(axis: Axis): real {
      match axis
      case X => x
      case Y => y
      case Z => z
    }

    function ToSeq(): seq<real> {
      [x, y, z]
    }
  }

  /** An axis-aligned box: the three minimum coordinates, then the three
      maximum coordinates, in the field order of the source's tuple struct. */
  datatype AABox = AABox(minX: real, minY: real, minZ: real, maxX: real, maxY: real, maxZ: real) {
    function Lo(): Vec3 { Vec3(minX, minY, minZ) }
    function Hi(): Vec3 { Vec3(maxX, maxY, maxZ) }

    /** The box's closed extent contains the point `v`. */
    predicate Holds(v: Vec3) {
      minX <= v.x <= maxX && minY <= v.y <= maxY && minZ <= v.z <= maxZ
    }

    predicate WellFormed() {
      minX <= maxX && minY <= maxY && minZ <= maxZ
    }
  }

  /** The trigonometry the rotation needs, left abstract. */
  datatype Trig = Trig(pi: real, sin: real -> real, cos: real -> real)

  /** The per-variant whole-model rotation, in degrees. */
  datatype ModelRotation = ModelRotation(x: real, y: real, z: real)

  /** An element's local rotation as it is deserialised: `origin` and `axis`
      are not validated yet. */
  datatype Rotation = Rotation(origin: seq<real>, axis: string, angle: real)

  /** A model element as deserialised: `from` and `to` are not validated yet. */
  datatype Element = Element(from: seq<real>, to: seq<real>, rotation: Option<Rotation>)

  /** Indentation style of the emitter. */
  datatype Style = Style(startIndentLevel: nat, tabWidth: nat, expandTab: bool)

  // ---------------------------------------------------------------------------
  // Validated constructors
  // ---------------------------------------------------------------------------

  /** `AABox::from`: both corners must have exactly three components; `from`
      fills the minimum slots and `to` the maximum slots, in order and without
      reordering. */
  function BoxFrom(from: seq<real>, to: seq<real>): (r: Result<AABox, Error>)
    ensures r.Success? <==> |from| == 3 && |to| == 3
    ensures r.Failure? ==> r.error == MalformedVector
    ensures r.Success? ==> r.value.Lo().ToSeq() == from && r.value.Hi().ToSeq() == to
  {
    if |from| != 3 || |to| != 3 then Failure(MalformedVector)
    else Success(AABox(from[0], from[1], from[2], to[0], to[1], to[2]))
  }

  /** `Vec3::from`: a vector needs exactly three components. */
  function Vec3From(v: seq<real>): (r: Result<Vec3, Error>)
    ensures r.Success? <==> |v| == 3
    ensures r.Failure? ==> r.error == MalformedVector
    ensures r.Success? ==> r.value.ToSeq() == v
  {
    if |v| != 3 then Failure(MalformedVector) else Success(Vec3(v[0], v[1], v[2]))
  }

  /** `Axis::from`: exactly the six strings "x", "X", "y", "Y", "z", "Z". */
  function AxisFrom(s: string): (r: Result<Axis, Error>)
    ensures r == Success(X) <==> s == "x" || s == "X"
    ensures r == Success(Y) <==> s == "y" || s == "Y"
    ensures r == Success(Z) <==> s == "z" || s == "Z"
    ensures r.Failure? ==> r.error == InvalidAxis
  {
    match s
    case "x" => Success(X)
    case "X" => Success(X)
    case "y" => Success(Y)
    case "Y" => Success(Y)
    case "z" => Success(Z)
    case "Z" => Success(Z)
    case _ => Failure(InvalidAxis)
  }

  /** The lower-case name of an axis, as it appears in model files. */
  function AxisName(a: Axis): string {
    match a
    case X => "x"
    case Y => "y"
    case Z => "z"
  }

  /** Reading back the name of an axis, in either case, gives the axis. */
  lemma AxisFromName(a: Axis)
    ensures AxisFrom(AxisName(a)) == Success(a)
    ensures |AxisName(a)| == 1 && AxisFrom([AxisName(a)[0] - 'a' + 'A']) == Success(a)
  {
  }

  /** The box's two corners, read back through `AABox::from`, rebuild it. */
  lemma BoxFromCorners(b: AABox)
    ensures BoxFrom(b.Lo().ToSeq(), b.Hi().ToSeq()) == Success(b)
  {
  }

  // ---------------------------------------------------------------------------
  // Vector arithmetic
  // ---------------------------------------------------------------------------

  /** Translation by `b`, undone by subtracting `b` again. */
  function Add(a: Vec3, b: Vec3): (r: Vec3)
    ensures forall axis: Axis :: r.At(axis) == a.At(axis) + b.At(axis)
    ensures Sub(r, b) == a
  {
    Vec3(a.x + b.x, a.y + b.y, a.z + b.z)
  }

  /** The offset of `a` from `b`, axis by axis. */
  function Sub(a: Vec3, b: Vec3): (r: Vec3)
    ensures forall axis: Axis :: r.At(axis) == a.At(axis) - b.At(axis)
  {
    Vec3(a.x - b.x, a.y - b.y, a.z - b.z)
  }

  /** Translating out and back in again is the identity, in both orders and
      on every axis separately. */
  lemma SubAddInverse(v: Vec3, o: Vec3)
    ensures Add(Sub(v, o), o) == v
    ensures Sub(Add(v, o), o) == v
    ensures forall a: Axis :: Add(v, o).At(a) == v.At(a) + o.At(a) && Sub(v, o).At(a) == v.At(a) - o.At(a)
  {
  }

  // ---------------------------------------------------------------------------
  // Corners and bounds
  // ---------------------------------------------------------------------------

  /** `into_verts`: the eight corners, bottom face (minimum z) first, each face
      traversed (min,min), (max,min), (max,max), (min,max) in x and y. */
  function IntoVerts(b: AABox): (r: seq<Vec3>)
    ensures |r| == 8
    ensures forall k :: 0 <= k < 4 ==> r[k].z == b.minZ
    ensures forall k :: 4 <= k < 8 ==> r[k].z == b.maxZ && r[k].x == r[k - 4].x && r[k].y == r[k - 4].y
  {
    [ Vec3(b.minX, b.minY, b.minZ), Vec3(b.maxX, b.minY, b.minZ),
      Vec3(b.maxX, b.maxY, b.minZ), Vec3(b.minX, b.maxY, b.minZ),
      Vec3(b.minX, b.minY, b.maxZ), Vec3(b.maxX, b.minY, b.maxZ),
      Vec3(b.maxX, b.maxY, b.maxZ), Vec3(b.minX, b.maxY, b.maxZ) ]
  }

  /** The eight corners are exactly the combinations of {minX, maxX},
      {minY, maxY} and {minZ, maxZ}. */
  lemma IntoVertsCorners(b: AABox)
    ensures forall v :: v in IntoVerts(b) <==>
      (v.x == b.minX || v.x == b.maxX) && (v.y == b.minY || v.y == b.maxY) && (v.z == b.minZ || v.z == b.maxZ)
  {
  }

  /** Smallest coordinate along `a` over a non-empty vertex list. */
  function MinAlong(vs: seq<Vec3>, a: Axis): (m: real)
    requires |vs| > 0
    ensures forall k :: 0 <= k < |vs| ==> m <= vs[k].At(a)
    ensures exists k :: 0 <= k < |vs| && vs[k].At(a) == m
    decreases |vs|
  {
    if |vs| == 1 then vs[0].At(a)
    else
      var rest := MinAlong(vs[1..], a);
      if vs[0].At(a) <= rest then vs[0].At(a) else rest
  }

  /** Largest coordinate along `a` over a non-empty vertex list. */
  function MaxAlong(vs: seq<Vec3>, a: Axis): (m: real)
    requires |vs| > 0
    ensures forall k :: 0 <= k < |vs| ==> vs[k].At(a) <= m
    ensures exists k :: 0 <= k < |vs| && vs[k].At(a) == m
    decreases |vs|
  {
    if |vs| == 1 then vs[0].At(a)
    else
      var rest := MaxAlong(vs[1..], a);
      if vs[0].At(a) >= rest then vs[0].At(a) else rest
  }

  /** The bounding step of `approximate`: per-axis minimum and maximum. Every
      vertex lies inside, every bound is attained by some vertex, and the box
      is well formed. */
  function Bounds(vs: seq<Vec3>): (b: AABox)
    requires |vs| > 0
    ensures forall k :: 0 <= k < |vs| ==> b.Holds(vs[k])
    ensures b.WellFormed()
    ensures forall a: Axis :: (exists k :: 0 <= k < |vs| && vs[k].At(a) == b.Lo().At(a))
    ensures forall a: Axis :: (exists k :: 0 <= k < |vs| && vs[k].At(a) == b.Hi().At(a))
  {
    var b := AABox(MinAlong(vs, X), MinAlong(vs, Y), MinAlong(vs, Z),
                   MaxAlong(vs, X), MaxAlong(vs, Y), MaxAlong(vs, Z));
    assert forall k :: 0 <= k < |vs| ==> b.Holds(vs[k]) by {
      forall k | 0 <= k < |vs| ensures b.Holds(vs[k]) {
        assert vs[k].x == vs[k].At(X) && vs[k].y == vs[k].At(Y) && vs[k].z == vs[k].At(Z);
      }
    }
    assert forall a: Axis :: b.Lo().At(a) == MinAlong(vs, a) && b.Hi().At(a) == MaxAlong(vs, a) by {
      forall a: Axis ensures b.Lo().At(a) == MinAlong(vs, a) && b.Hi().At(a) == MaxAlong(vs, a) {
        if a.X? {
        } else if a.Y? {
        } else {
        }
      }
    }
    b
  }

  /** Two lists whose coordinates along `a` agree position by position have
      the same minimum and maximum along `a`. */
  lemma {:induction false} BoundsAlongAgree(vs: seq<Vec3>, ws: seq<Vec3>, a: Axis)
    requires |vs| == |ws| > 0
    requires forall k :: 0 <= k < |vs| ==> vs[k].At(a) == ws[k].At(a)
    ensures MinAlong(vs, a) == MinAlong(ws, a) && MaxAlong(vs, a) == MaxAlong(ws, a)
  {
    var i :| 0 <= i < |vs| && vs[i].At(a) == MinAlong(vs, a);
    var j :| 0 <= j < |ws| && ws[j].At(a) == MinAlong(ws, a);
    assert MinAlong(vs, a) <= vs[j].At(a) && MinAlong(ws, a) <= ws[i].At(a);
    var p :| 0 <= p < |vs| && vs[p].At(a) == MaxAlong(vs, a);
    var q :| 0 <= q < |ws| && ws[q].At(a) == MaxAlong(ws, a);
    assert vs[q].At(a) <= MaxAlong(vs, a) && ws[p].At(a) <= MaxAlong(ws, a);
  }

  /** The corners of a box given as `from`/`to` span, per axis, exactly from
      the smaller to the larger of the two corner coordinates. */
  lemma {:induction false} BoundsOfCorners(b: AABox, a: Axis)
    ensures MinAlong(IntoVerts(b), a) == Min(b.Lo().At(a), b.Hi().At(a))
    ensures MaxAlong(IntoVerts(b), a) == Max(b.Lo().At(a), b.Hi().At(a))
  {
    var vs := IntoVerts(b);
    assert vs[0].At(a) == b.Lo().At(a) && vs[6].At(a) == b.Hi().At(a);
    var i :| 0 <= i < |vs| && vs[i].At(a) == MinAlong(vs, a);
    var j :| 0 <= j < |vs| && vs[j].At(a) == MaxAlong(vs, a);
    CornerAlong(b, a, i);
    CornerAlong(b, a, j);
  }

  /** Each corner sits at the low or the high side of the box along `a`. */
  lemma CornerAlong(b: AABox, a: Axis, k: nat)
    requires k < 8
    ensures IntoVerts(b)[k].At(a) == b.Lo().At(a) || IntoVerts(b)[k].At(a) == b.Hi().At(a)
  {
  }

  function Min(a: real, b: real): real { if a <= b then a else b }
  function Max(a: real, b: real): real { if a >= b then a else b }

  // ---------------------------------------------------------------------------
  // Rotation
  // ---------------------------------------------------------------------------

  /** The rotation step applied to one vertex already translated to the
      pivot. The angle is negated and converted to radians; the rotated plane
      is (z, y) for X, (x, z) for Y and (y, x) for Z, and the result is written
      back into the same slots. */
  function Turn(v: Vec3, axis: Axis, angle: real, trig: Trig): (r: Vec3)
    ensures r.At(axis) == v.At(axis)
    ensures angle == 0.0 && trig.sin(0.0) == 0.0 && trig.cos(0.0) == 1.0 ==> r == v
  {
    var (x, y) := match axis
      case X => (v.z, v.y)
      case Y => (v.x, v.z)
      case Z => (v.y, v.x);
    var de := (2.0 * trig.pi) / 360.0;
    var rad := -angle * de;
    assert angle == 0.0 ==> rad == 0.0;
    var x' := x * trig.cos(rad) - y * trig.sin(rad);
    var y' := y * trig.cos(rad) + x * trig.sin(rad);
    match axis
    case X => Vec3(v.x, y', x')
    case Y => Vec3(x', v.y, y')
    case Z => Vec3(y', x', v.z)
  }

  /** One vertex rotated about `origin`: translate out, turn, translate back. */
  function RotateAbout(v: Vec3, origin: Vec3, axis: Axis, angle: real, trig: Trig): Vec3 {
    Add(Turn(Sub(v, origin), axis, angle, trig), origin)
  }

  /** Every vertex of a list rotated about `origin`. */
  function RotateAll(vs: seq<Vec3>, origin: Vec3, axis: Axis, angle: real, trig: Trig): seq<Vec3>
  {
    seq(|vs|, k requires 0 <= k < |vs| => RotateAbout(vs[k], origin, axis, angle, trig))
  }

  /** Rotating one vertex about an axis keeps its coordinate on that axis. */
  lemma RotateAboutKeepsAxis(v: Vec3, origin: Vec3, axis: Axis, angle: real, trig: Trig)
    ensures RotateAbout(v, origin, axis, angle, trig).At(axis) == v.At(axis)
  {
  }

  /** `rotate` keeps the number of vertices and, for every vertex, the
      coordinate on the rotation axis; the pivot itself does not move. */
  lemma RotateKeepsAxis(vs: seq<Vec3>, origin: Vec3, axis: Axis, angle: real, trig: Trig)
    ensures |RotateAll(vs, origin, axis, angle, trig)| == |vs|
    ensures forall k :: 0 <= k < |vs| ==> RotateAll(vs, origin, axis, angle, trig)[k].At(axis) == vs[k].At(axis)
    ensures RotateAbout(origin, origin, axis, angle, trig) == origin
  {
  }

  /** Where sine and cosine of zero are 0 and 1, a zero-degree rotation moves
      no vertex. */
  lemma ZeroAngleIsIdentity(v: Vec3, origin: Vec3, axis: Axis, trig: Trig)
    requires trig.sin(0.0) == 0.0 && trig.cos(0.0) == 1.0
    ensures RotateAbout(v, origin, axis, 0.0, trig) == v
  {
  }

  /** `rotate`: three in-place passes over the vertex list (translate out,
      turn, translate back). */
  method Rotate(el: seq<Vec3>, origin: Vec3, axis: Axis, angle: real, trig: Trig) returns (r: seq<Vec3>)
    ensures r == RotateAll(el, origin, axis, angle, trig)
  {
    r := el;
    for k := 0 to |r|
      invariant |r| == |el|
      invariant forall i :: 0 <= i < k ==> r[i] == Sub(el[i], origin)
      invariant forall i :: k <= i < |r| ==> r[i] == el[i]
    {
      r := r[k := Sub(r[k], origin)];
    }
    for k := 0 to |r|
      invariant |r| == |el|
      invariant forall i :: 0 <= i < k ==> r[i] == Turn(Sub(el[i], origin), axis, angle, trig)
      invariant forall i :: k <= i < |r| ==> r[i] == Sub(el[i], origin)
    {
      r := r[k := Turn(r[k], axis, angle, trig)];
    }
    for k := 0 to |r|
      invariant |r| == |el|
      invariant forall i :: 0 <= i < k ==> r[i] == RotateAbout(el[i], origin, axis, angle, trig)
      invariant forall i :: k <= i < |r| ==> r[i] == Turn(Sub(el[i], origin), axis, angle, trig)
    {
      r := r[k := Add(r[k], origin)];
    }
  }

  // ---------------------------------------------------------------------------
  // Approximation of one element
  // ---------------------------------------------------------------------------

  /** The fixed pivot of whole-model rotations: the centre of the 16-unit cell. */
  const Pivot := Vec3(8.0, 8.0, 8.0)

  /** Steps 1 and 2: the element's corners, rotated by its own rotation (about
      its own origin, with the angle as given) when it has one. */
  function ElementVerts(el: Element, trig: Trig): (r: Result<seq<Vec3>, Error>)
    ensures r.Success? ==> |r.value| == 8
  {
    var b :- BoxFrom(el.from, el.to);
    match el.rotation
    case None => Success(IntoVerts(b))
    case Some(rot) =>
      var o :- Vec3From(rot.origin);
      var ax :- AxisFrom(rot.axis);
      Success(RotateAll(IntoVerts(b), o, ax, rot.angle, trig))
  }

  /** Step 3: the whole-model rotation, component by component in the order
      x, y, z, each about the pivot with the negated angle, and each skipped
      entirely when its component is zero. */
  function ModelRotated(vs: seq<Vec3>, m: ModelRotation, trig: Trig): (r: seq<Vec3>)
    ensures |r| == |vs|
  {
    var afterX := if m.x != 0.0 then RotateAll(vs, Pivot, X, -m.x, trig) else vs;
    var afterY := if m.y != 0.0 then RotateAll(afterX, Pivot, Y, -m.y, trig) else afterX;
    if m.z != 0.0 then RotateAll(afterY, Pivot, Z, -m.z, trig) else afterY
  }

  /** What `approximate` computes: the bounds of the transformed corners, or
      the first validation error met. */
  function Approximated(el: Element, m: ModelRotation, trig: Trig): Result<AABox, Error> {
    match ElementVerts(el, trig)
    case Failure(e) => Failure(e)
    case Success(vs) => Success(Bounds(ModelRotated(vs, m, trig)))
  }

  /** `approximate`, step by step as the source reassigns its vertex list. */
  method Approximate(el: Element, m: ModelRotation, trig: Trig) returns (r: Result<AABox, Error>)
    ensures r == Approximated(el, m, trig)
  {
    var verts := ElementCorners(el, trig);
    if verts.Failure? {
      return Failure(verts.error);
    }
    var turned := RotateModel(verts.value, m, trig);
    r := Success(Bounds(turned));
  }

  /** Steps 1 and 2 of `approximate`: validate the corners, expand them, and
      apply the element's own rotation after validating its origin and axis. */
  method ElementCorners(el: Element, trig: Trig) returns (r: Result<seq<Vec3>, Error>)
    ensures r == ElementVerts(el, trig)
  {
    var b := BoxFrom(el.from, el.to);
    if b.Failure? {
      return Failure(b.error);
    }
    var verts := IntoVerts(b.value);
    match el.rotation {
      case None =>
      case Some(rot) =>
        var o := Vec3From(rot.origin);
        if o.Failure? {
          return Failure(o.error);
        }
        var ax := AxisFrom(rot.axis);
        if ax.Failure? {
          return Failure(ax.error);
        }
        verts := Rotate(verts, o.value, ax.value, rot.angle, trig);
    }
    r := Success(verts);
  }

  /** Step 3 of `approximate`: the model rotation, component by component. */
  method RotateModel(vs: seq<Vec3>, m: ModelRotation, trig: Trig) returns (r: seq<Vec3>)
    ensures r == ModelRotated(vs, m, trig)
  {
    r := vs;
    if m.x != 0.0 {
      r := Rotate(r, Pivot, X, -m.x, trig);
    }
    ghost var afterX := r;
    if m.y != 0.0 {
      r := Rotate(r, Pivot, Y, -m.y, trig);
    }
    ghost var afterY := r;
    if m.z != 0.0 {
      r := Rotate(r, Pivot, Z, -m.z, trig);
    }
    assert afterX == if m.x != 0.0 then RotateAll(vs, Pivot, X, -m.x, trig) else vs;
    assert afterY == if m.y != 0.0 then RotateAll(afterX, Pivot, Y, -m.y, trig) else afterX;
  }

  /** With no element rotation and a zero model rotation, the element comes
      back as its own box, each axis ordered from the smaller to the larger
      of the two corner coordinates. */
  lemma ZeroRotationIdentity(el: Element, trig: Trig)
    requires |el.from| == 3 && |el.to| == 3 && el.rotation.None?
    ensures Approximated(el, ModelRotation(0.0, 0.0, 0.0), trig) == Success(AABox(
      Min(el.from[0], el.to[0]), Min(el.from[1], el.to[1]), Min(el.from[2], el.to[2]),
      Max(el.from[0], el.to[0]), Max(el.from[1], el.to[1]), Max(el.from[2], el.to[2])))
  {
    var b := BoxFrom(el.from, el.to).value;
    var vs := IntoVerts(b);
    assert ElementVerts(el, trig) == Success(vs);
    assert ModelRotated(vs, ModelRotation(0.0, 0.0, 0.0), trig) == vs;
    assert Approximated(el, ModelRotation(0.0, 0.0, 0.0), trig) == Success(Bounds(vs));
    assert b.Lo().At(X) == el.from[0] && b.Hi().At(X) == el.to[0];
    assert b.Lo().At(Y) == el.from[1] && b.Hi().At(Y) == el.to[1];
    assert b.Lo().At(Z) == el.from[2] && b.Hi().At(Z) == el.to[2];
    BoundsOfCorners(b, X);
    BoundsOfCorners(b, Y);
    BoundsOfCorners(b, Z);
  }

  /** `approximate` fails exactly on malformed input: a corner or the rotation
      origin without three components gives MalformedVector, an unknown axis
      gives InvalidAxis, and the corners are checked before the origin and the
      origin before the axis. */
  lemma ApproximatedErrors(el: Element, m: ModelRotation, trig: Trig)
    ensures var r := Approximated(el, m, trig);
      && (r.Failure? <==>
            (|el.from| != 3 || |el.to| != 3 ||
             (el.rotation.Some? && (|el.rotation.value.origin| != 3 || AxisFrom(el.rotation.value.axis).Failure?))))
      && (r.Failure? && r.error == InvalidAxis <==>
            |el.from| == 3 && |el.to| == 3 && el.rotation.Some? && |el.rotation.value.origin| == 3 &&
            AxisFrom(el.rotation.value.axis).Failure?)
  {
  }

  /** A model rotated about Y only, from an element with no rotation of its
      own, keeps the element's Y extent: the Y bounds are the smaller and the
      larger of the two corner Y coordinates, whatever the angle. */
  lemma {:induction false} YRotationKeepsYExtent(el: Element, angle: real, trig: Trig)
    requires |el.from| == 3 && |el.to| == 3 && el.rotation.None?
    ensures Approximated(el, ModelRotation(0.0, angle, 0.0), trig).Success?
    ensures var b := Approximated(el, ModelRotation(0.0, angle, 0.0), trig).value;
      b.minY == Min(el.from[1], el.to[1]) && b.maxY == Max(el.from[1], el.to[1])
  {
    var box := BoxFrom(el.from, el.to).value;
    var vs := IntoVerts(box);
    assert ElementVerts(el, trig) == Success(vs);
    var ws := ModelRotated(vs, ModelRotation(0.0, angle, 0.0), trig);
    assert Approximated(el, ModelRotation(0.0, angle, 0.0), trig) == Success(Bounds(ws));
    assert box.Lo().At(Y) == el.from[1] && box.Hi().At(Y) == el.to[1];
    SameAlongAxis(vs, angle, trig);
    BoundsAlongAgree(vs, ws, Y);
    BoundsOfCorners(box, Y);
  }

  /** A model rotation about Y alone keeps every Y coordinate. */
  lemma SameAlongAxis(vs: seq<Vec3>, angle: real, trig: Trig)
    ensures var ws := ModelRotated(vs, ModelRotation(0.0, angle, 0.0), trig);
      |ws| == |vs| && forall k :: 0 <= k < |vs| ==> vs[k].At(Y) == ws[k].At(Y)
  {
    var ws := ModelRotated(vs, ModelRotation(0.0, angle, 0.0), trig);
    if angle != 0.0 {
      assert ws == RotateAll(vs, Pivot, Y, -angle, trig);
      forall k | 0 <= k < |vs| ensures vs[k].At(Y) == ws[k].At(Y) {
        assert ws[k] == RotateAbout(vs[k], Pivot, Y, -angle, trig);
        RotateAboutKeepsAxis(vs[k], Pivot, Y, -angle, trig);
      }
    } else {
      assert ws == vs;
    }
  }

  /** `mkindent`: `level * tab_width` spaces when tabs are expanded, otherwise
      `level` tab characters. */
  function Mkindent(level: nat, style: Style): (r: string)
    ensures style.expandTab ==> |r| == level * style.tabWidth && forall i :: 0 <= i < |r| ==> r[i] == ' '
    ensures !style.expandTab ==> |r| == level && forall i :: 0 <= i < |r| ==> r[i] == '\t'
  {
    if style.expandTab then Text.Repeat(' ', level * style.tabWidth) else Text.Repeat('\t', level)
  }
}
