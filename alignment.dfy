/**
 * The alignment check `_read_raster`: a hillslope, zone or patch raster is accepted only when
 * its grid geometry and projection equal those taken from the basin (reference) raster.
 */
module Alignment {
  import opened PatchTypes

  /** The six affine coefficients `GetGeoTransform` fills in; doubles are modelled as `real`. */
  datatype GeoTransform = GeoTransform(
    originX: real, pixelWidth: real, rowRotation: real,
    originY: real, columnRotation: real, pixelHeight: real)

  /** The part of a candidate dataset the check consults. `geoTransform` is None when fetching it fails. */
  datatype Dataset = Dataset(geoTransform: Option<GeoTransform>, xSize: int, ySize: int, projectionRef: string)

  /** Geometry of the basin raster that every other layer must match. */
  datatype Reference = Reference(sizeX: int, sizeY: int, pixelHeight: real, pixelWidth: real, projWkt: string)

  /** The five compared attributes, in the order the asserts test them. */
  datatype Attribute = PixelHeight | PixelWidth | XSize | YSize | Projection

  function Rank(a: Attribute): (r: nat) {
    match a
    case PixelHeight => 0
    case PixelWidth => 1
    case XSize => 2
    case YSize => 3
    case Projection => 4
  }

  /**
   * Outcome of `_read_raster`: EXIT_SUCCESS, an EXIT_FAILURE return (open or geotransform
   * failure), or an assertion failure that aborts the process at the first differing attribute.
   */
  datatype ReadOutcome = Success | OpenFailed | NoGeoTransform | AssertionFailed(attribute: Attribute)

  /** The attributes on which a dataset with geotransform `gt` differs from the reference. */
  function Mismatches(ds: Dataset, gt: GeoTransform, ref: Reference): (r: set<Attribute>) {
    (if gt.pixelHeight != ref.pixelHeight then {PixelHeight} else {}) +
    (if gt.pixelWidth != ref.pixelWidth then {PixelWidth} else {}) +
    (if ds.xSize != ref.sizeX then {XSize} else {}) +
    (if ds.ySize != ref.sizeY then {YSize} else {}) +
    (if ds.projectionRef != ref.projWkt then {Projection} else {})
  }

  /** `candidate` is None when `GDALOpen` returns NULL. */
  function ReadRaster(candidate: Option<Dataset>, ref: Reference): (r: ReadOutcome)
    ensures candidate.None? ==> r == OpenFailed
    ensures candidate.Some? && candidate.value.geoTransform.None? ==> r == NoGeoTransform
    ensures candidate.Some? && candidate.value.geoTransform.Some? ==> r.Success? || r.AssertionFailed?
    ensures r == Success <==>
      && candidate.Some? && candidate.value.geoTransform.Some?
      && candidate.value.geoTransform.value.pixelHeight == ref.pixelHeight
      && candidate.value.geoTransform.value.pixelWidth == ref.pixelWidth
      && candidate.value.xSize == ref.sizeX
      && candidate.value.ySize == ref.sizeY
      && candidate.value.projectionRef == ref.projWkt
    ensures r.AssertionFailed? ==>
      && candidate.Some? && candidate.value.geoTransform.Some?
      && var bad := Mismatches(candidate.value, candidate.value.geoTransform.value, ref);
      && r.attribute in bad
      && forall a :: a in bad ==> Rank(r.attribute) <= Rank(a)
  {
    if candidate.None? then OpenFailed
    else
      var ds := candidate.value;
      if ds.geoTransform.None? then NoGeoTransform
      else
        var gt := ds.geoTransform.value;
        if gt.pixelHeight != ref.pixelHeight then AssertionFailed(PixelHeight)
        else if gt.pixelWidth != ref.pixelWidth then AssertionFailed(PixelWidth)
        else if ds.xSize != ref.sizeX then AssertionFailed(XSize)
        else if ds.ySize != ref.sizeY then AssertionFailed(YSize)
        else if ds.projectionRef != ref.projWkt then AssertionFailed(Projection)
        else Success
  }

  /** A dataset that opens and has a geotransform passes exactly when none of the five attributes differ. */
  lemma ReadRasterAgreesWithMismatches(ds: Dataset, ref: Reference)
    requires ds.geoTransform.Some?
    ensures ReadRaster(Some(ds), ref) == Success <==> Mismatches(ds, ds.geoTransform.value, ref) == {}
  {
  }

  /** Passing the check does not depend on the origin or rotation coefficients of the geotransform. */
  lemma OriginAndRotationIgnored(ds: Dataset, gt1: GeoTransform, gt2: GeoTransform, ref: Reference)
    requires gt1.pixelHeight == gt2.pixelHeight && gt1.pixelWidth == gt2.pixelWidth
    ensures ReadRaster(Some(ds.(geoTransform := Some(gt1))), ref) == ReadRaster(Some(ds.(geoTransform := Some(gt2))), ref)
  {
  }
}
