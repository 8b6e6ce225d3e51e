/** The shapes of a face-detection result that the compositing code reads:
    each detected face has a bounding box in fractions of the image size and,
    when the detector reported them, a list of scored emotions. */
module Detection {

  import opened Wrappers

  /** Fractions of the image width and height; the detector does not promise
      that they lie in [0, 1] and the code does not clamp them. */
  datatype BoundingBox = BoundingBox(left: real, top: real, width: real, height: real)

  /** One scored emotion: the detector's upper-case label and its confidence. */
  datatype Emotion = Emotion(kind: string, confidence: real)

  /** `emotions` is `None` when the face record has no `Emotions` field. */
  datatype Face = Face(box: BoundingBox, emotions: Option<seq<Emotion>>)
}
