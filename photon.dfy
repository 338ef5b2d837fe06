/**
 * The values the Nominatim import hands around: points, the geometry of an
 * interpolation line, and the document that is finally indexed.
 */
module Photon {

  /** A position; the coordinate arithmetic of the geometry library is not modelled. */
  datatype Point = Point(x: real, y: real)

  /**
   * The document to be indexed. Only its house number and centroid are
   * touched by the import; the rest (names, address parts, category) is
   * carried along unchanged in `attributes`. `usefulForIndex` stands for the
   * document's own verdict on whether it is worth indexing.
   */
  datatype PhotonDoc = PhotonDoc(
    houseNumber: string,
    centroid: Point,
    usefulForIndex: bool,
    attributes: map<string, string>)

  /**
   * An interpolation line indexed by length: the length index of its start
   * and end, and the point found at a given length index.
   */
  datatype IndexedLine = IndexedLine(startIndex: real, endIndex: real, extractPoint: real -> Point)

  /**
   * A copy of the document whose house number and centroid are replaced; every
   * other part of it is the base document's.
   */
  function WithHousenumber(doc: PhotonDoc, housenumber: string, centroid: Point): (copy: PhotonDoc)
    ensures copy.houseNumber == housenumber && copy.centroid == centroid
    ensures copy.(houseNumber := doc.houseNumber, centroid := doc.centroid) == doc
  {
    doc.(houseNumber := housenumber, centroid := centroid)
  }
}
