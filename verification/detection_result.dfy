/** The `DetectionResult` record every detector returns. */
module DetectionResult {
  import opened Faults
  import opened Drawing

  /** One detected face. The box fields are floats in the source; the
      detectors fill them from integers. `points` is `null` (`None`) unless a
      non-empty landmark list was supplied. */
  datatype Detection = Detection(
    classId: int,
    confidence: real,
    x: real,
    y: real,
    width: real,
    height: real,
    points: Option<seq<Point>>)

  /** The record's constructor: every scalar is copied unchanged, and `Points`
      is assigned only when the supplied list exists and is non-empty. */
  function NewDetection(classId: int, confidence: real, x: real, y: real, width: real, height: real,
                        points: Option<seq<Point>>): (d: Detection)
    ensures d.classId == classId && d.confidence == confidence
    ensures d.x == x && d.y == y && d.width == width && d.height == height
    ensures d.points.Some? <==> points.Some? && |points.value| > 0
    ensures d.points.Some? ==> d.points.value == points.value
  {
    var stored := if points.Some? && |points.value| > 0 then points else None;
    Detection(classId, confidence, x, y, width, height, stored)
  }

  /** The landmarks as a caller enumerates them, treating `null` as empty. */
  function PointList(points: Option<seq<Point>>): seq<Point>
  {
    if points.Some? then points.value else []
  }

  /** Storing the landmarks loses nothing: reading `Points` back gives the
      supplied list, in its order, and gives nothing for `null` or empty. */
  lemma PointsRoundTrip(classId: int, confidence: real, x: real, y: real, width: real, height: real,
                        points: Option<seq<Point>>)
    ensures PointList(NewDetection(classId, confidence, x, y, width, height, points).points) == PointList(points)
  {
  }
}
