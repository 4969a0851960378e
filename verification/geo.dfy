/** Shapely geometries, kept opaque: only the type tag and the bounding box are visible. */
module Geo {

  datatype GeometryKind =
    | Point | LineString | Polygon | MultiPoint | MultiLineString | MultiPolygon | Collection

  /** `geometry.bounds`: (minx, miny, maxx, maxy). */
  datatype Bounds = Bounds(minX: real, minY: real, maxX: real, maxY: real)

  datatype Geometry = Geometry(kind: GeometryKind, bounds: Bounds)

  /** `isinstance(g, Polygon) or isinstance(g, MultiPolygon)`. */
  predicate IsPolygonal(g: Geometry) {
    g.kind == Polygon || g.kind == MultiPolygon
  }
}
