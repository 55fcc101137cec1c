/** The usual optional value; `nil` in the Swift source. */
module Wrappers {
  datatype Option<+T> = None | Some(value: T)
}

/**
 * The geometric primitives the BSP engine calls into. Vector, plane and
 * polygon arithmetic is floating point and is not modelled: planes and
 * polygon geometry are opaque, and every primitive is a field of a
 * `Geometry` record that each operation receives as a parameter.
 */
module Primitives {
  import opened Wrappers

  /** A plane (unit normal and offset). */
  type Plane(!new)

  /** A polygon's vertices, plane and material. */
  type Geom(!new)

  /** A polygon: its geometry and its lineage id (0 means "no lineage"). */
  datatype Polygon = Polygon(geom: Geom, id: int)

  /** The answer of `Polygon.compare(with:)`. */
  datatype Side = Coplanar | Front | Back | Spanning

  /**
   * What a splitting primitive appends to the array passed for the front
   * fragments and to the array passed for the back fragments, and the value
   * of the lineage counter afterwards.
   */
  datatype Fragments = Fragments(front: seq<Polygon>, back: seq<Polygon>, id: int)

  /**
   * The primitives, as functions:
   *  - planeOf: `polygon.plane`
   *  - isEqual: `Plane.isEqual(to:)`, equality within a tolerance
   *  - sameFacing(a, b): `a.normal.dot(b.normal) > 0`
   *  - compare: `Polygon.compare(with:)`
   *  - splitSpanning(p, plane, id): `p.split(spanning: plane, &front, &back, &id)`
   *  - clipTo(p, ps, id): `p.clip(to: ps, &back, &front, &id)`
   *  - join(a, b): `a.join(unchecked: b, ensureConvex: true)`
   */
  datatype Geometry = Geometry(
    planeOf: Geom -> Plane,
    isEqual: (Plane, Plane) -> bool,
    sameFacing: (Plane, Plane) -> bool,
    compare: (Polygon, Plane) -> Side,
    splitSpanning: (Polygon, Plane, int) -> Fragments,
    clipTo: (Polygon, seq<Polygon>, int) -> Fragments,
    join: (Polygon, Polygon) -> Option<Polygon>)

  /** The plane of a polygon. */
  function PlaneOf(geo: Geometry, p: Polygon): Plane
  {
    geo.planeOf(p.geom)
  }

  /** A rigid transform (translation, scale or rotation) on planes and polygons. */
  datatype Transform = Transform(plane: Plane -> Plane, polygon: Polygon -> Polygon)

  /** `BSP.ClipRule`: which side of the solid's boundary a clip keeps. */
  datatype ClipRule = GreaterThan | GreaterThanEqual | LessThan | LessThanEqual

  /** Whether the clip rule keeps the front side (`greaterThan` or `greaterThanEqual`). */
  function KeepFront(rule: ClipRule): (keep: bool)
    ensures keep <==> rule.GreaterThan? || rule.GreaterThanEqual?
    ensures !keep <==> rule.LessThan? || rule.LessThanEqual?
  {
    match rule
    case GreaterThan | GreaterThanEqual => true
    case LessThan | LessThanEqual => false
  }

  /** No polygon is ever classified as spanning a plane. */
  ghost predicate NeverSpans(geo: Geometry)
  {
    forall p: Polygon, pl: Plane :: geo.compare(p, pl) != Spanning
  }

  /** No two polygons are ever rejoined. */
  ghost predicate NeverJoins(geo: Geometry)
  {
    forall a: Polygon, b: Polygon :: geo.join(a, b).None?
  }

  /** A rejoined polygon keeps the lineage id of the polygon it was joined to. */
  ghost predicate JoinKeepsId(geo: Geometry)
  {
    forall a: Polygon, b: Polygon :: geo.join(a, b).Some? ==> geo.join(a, b).value.id == a.id
  }

  /** A polygon lies on its own plane and faces the same way as it. */
  ghost predicate OnOwnPlane(geo: Geometry)
  {
    forall p: Polygon ::
      geo.compare(p, PlaneOf(geo, p)) == Coplanar && geo.sameFacing(PlaneOf(geo, p), PlaneOf(geo, p))
  }
}
