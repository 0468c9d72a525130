/**
 * Value types shared by the screens: coordinates and the start/end pair that the
 * address screen hands to the route screen (MapApp/Models/LocationPair.swift).
 */
module Models {

  /** A latitude/longitude pair. Only equality is observed by the modelled code. */
  type Coordinate(==)

  /** The resolved start and end of a trip; compared field by field. */
  datatype LocationPair = LocationPair(startLocation: Coordinate, endLocation: Coordinate)
}
