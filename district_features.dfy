/**
 * The GeoJSON records that js/district-map.js builds for districts and counties, and the
 * label point it computes for each district (`getFeatureCenter`).
 */
module DistrictFeatures {
  import opened JsText

  /** A GeoJSON position: longitude first, then latitude. */
  datatype Position = Position(lng: real, lat: real)

  /** A linear ring of positions. */
  type Ring = seq<Position>

  /** The only geometry the map builds; `coordinates` holds the outer ring first. */
  datatype Geometry = Polygon(coordinates: seq<Ring>)

  /** `properties` of a district feature or of a county feature. */
  datatype Properties =
    | DistrictProperties(district: string, state: string)
    | CountyProperties(name: string)

  /** A GeoJSON object of type "Feature". */
  datatype Feature = Feature(properties: Properties, geometry: Geometry)

  /** A GeoJSON object of type "FeatureCollection". */
  datatype FeatureCollection = FeatureCollection(features: seq<Feature>)

  /** A Leaflet point: latitude first, then longitude. */
  datatype LatLng = LatLng(lat: real, lng: real)

  /** `createDistrictFeature(district, coordinates)`. */
  function CreateDistrictFeature(district: string, coordinates: Ring): Feature {
    Feature(DistrictProperties(district, "TX"), Polygon([coordinates]))
  }

  /** `createCountyFeature(name, coordinates)`. */
  function CreateCountyFeature(name: string, coordinates: Ring): Feature {
    Feature(CountyProperties(name), Polygon([coordinates]))
  }

  /** `feature.properties.district`; None is `undefined`, which is what a county feature yields. */
  function DistrictOf(f: Feature): Option<string> {
    if f.properties.DistrictProperties? then Some(f.properties.district) else None
  }

  /** `feature.geometry.coordinates[0]`; None is `undefined`, for a polygon without rings. */
  function OuterRing(f: Feature): Option<Ring> {
    if |f.geometry.coordinates| > 0 then Some(f.geometry.coordinates[0]) else None
  }

  /** What the accessors used by the map read back from the two record builders. */
  lemma CreatedFeatureFields(name: string, ring: Ring)
    ensures DistrictOf(CreateDistrictFeature(name, ring)) == Some(name)
    ensures CreateDistrictFeature(name, ring).properties.state == "TX"
    ensures OuterRing(CreateDistrictFeature(name, ring)) == Some(ring)
    ensures |CreateDistrictFeature(name, ring).geometry.coordinates| == 1
    ensures DistrictOf(CreateCountyFeature(name, ring)) == None
    ensures CreateCountyFeature(name, ring).properties.name == name
    ensures OuterRing(CreateCountyFeature(name, ring)) == Some(ring)
    ensures |CreateCountyFeature(name, ring).geometry.coordinates| == 1
  {
  }

  /** The label point used when a feature has no vertices: the map's initial centre over Texas. */
  const DefaultCenter := LatLng(31.0, -99.5)

  /** Sum of the latitudes (second components) of the ring's vertices, in order. */
  function SumLat(ring: Ring): real {
    if ring == [] then 0.0 else SumLat(ring[..|ring| - 1]) + ring[|ring| - 1].lat
  }

  /** Sum of the longitudes (first components) of the ring's vertices, in order. */
  function SumLng(ring: Ring): real {
    if ring == [] then 0.0 else SumLng(ring[..|ring| - 1]) + ring[|ring| - 1].lng
  }

  /**
   * The vertex mean of a ring, swapped into Leaflet's [lat, lng] order; the default point for an
   * empty ring. Every vertex counts, so a closed ring counts its first vertex twice.
   */
  function RingCenter(ring: Ring): LatLng {
    if |ring| == 0 then DefaultCenter
    else LatLng(SumLat(ring) / (|ring| as real), SumLng(ring) / (|ring| as real))
  }

  /** The label point of a feature: that of its outer ring, or the default when it has none. */
  function FeatureCenter(f: Feature): LatLng {
    match OuterRing(f)
    case None => DefaultCenter
    case Some(ring) => RingCenter(ring)
  }

  /** `getFeatureCenter(feature)`: accumulates the two sums vertex by vertex, then divides. */
  method GetFeatureCenter(f: Feature) returns (c: LatLng)
    ensures c == FeatureCenter(f)
  {
    if |f.geometry.coordinates| == 0 || |f.geometry.coordinates[0]| == 0 {
      return DefaultCenter;
    }
    var coords := f.geometry.coordinates[0];
    var lat, lng := 0.0, 0.0;
    var i := 0;
    while i < |coords|
      invariant 0 <= i <= |coords|
      invariant lat == SumLat(coords[..i])
      invariant lng == SumLng(coords[..i])
    {
      assert coords[..i + 1][..i] == coords[..i];
      lng := lng + coords[i].lng;
      lat := lat + coords[i].lat;
      i := i + 1;
    }
    assert coords[..i] == coords;
    c := LatLng(lat / (|coords| as real), lng / (|coords| as real));
  }

  lemma {:induction false} SumLatBounds(ring: Ring, lo: real, hi: real)
    requires forall i :: 0 <= i < |ring| ==> lo <= ring[i].lat <= hi
    ensures (|ring| as real) * lo <= SumLat(ring) <= (|ring| as real) * hi
  {
    if ring != [] {
      SumLatBounds(ring[..|ring| - 1], lo, hi);
    }
  }

  lemma {:induction false} SumLngBounds(ring: Ring, lo: real, hi: real)
    requires forall i :: 0 <= i < |ring| ==> lo <= ring[i].lng <= hi
    ensures (|ring| as real) * lo <= SumLng(ring) <= (|ring| as real) * hi
  {
    if ring != [] {
      SumLngBounds(ring[..|ring| - 1], lo, hi);
    }
  }

  lemma MeanBounds(sum: real, n: real, lo: real, hi: real)
    requires n > 0.0 && n * lo <= sum <= n * hi
    ensures lo <= sum / n <= hi
  {
    assert sum / n * n == sum;
  }

  /**
   * A non-empty ring's label point lies in any latitude/longitude box that holds all of its
   * vertices, with the coordinates swapped: the ring's second components give the latitude.
   */
  lemma CenterWithinBounds(ring: Ring, south: real, north: real, west: real, east: real)
    requires |ring| > 0
    requires forall i :: 0 <= i < |ring| ==> south <= ring[i].lat <= north && west <= ring[i].lng <= east
    ensures south <= RingCenter(ring).lat <= north
    ensures west <= RingCenter(ring).lng <= east
  {
    SumLatBounds(ring, south, north);
    SumLngBounds(ring, west, east);
    MeanBounds(SumLat(ring), |ring| as real, south, north);
    MeanBounds(SumLng(ring), |ring| as real, west, east);
  }

  /** A ring whose vertices all sit at one position has its label exactly there, in [lat, lng] order. */
  lemma CenterOfConstantRing(ring: Ring, p: Position)
    requires |ring| > 0
    requires forall i :: 0 <= i < |ring| ==> ring[i] == p
    ensures RingCenter(ring) == LatLng(p.lat, p.lng)
  {
    CenterWithinBounds(ring, p.lat, p.lat, p.lng, p.lng);
  }

  /** The label of a feature built by either builder is its ring's mean, or the default for an empty ring. */
  lemma CenterOfCreatedFeature(name: string, ring: Ring)
    ensures FeatureCenter(CreateDistrictFeature(name, ring)) == RingCenter(ring)
    ensures FeatureCenter(CreateCountyFeature(name, ring)) == RingCenter(ring)
    ensures |ring| == 0 ==> FeatureCenter(CreateDistrictFeature(name, ring)) == DefaultCenter
  {
  }
}
