/** The image-processing libraries the face code calls (OpenCV, the
    `face_recognition` package). Their results are taken as given: each
    library call is a field of a value passed in, so nothing is assumed about
    what it computes. */
module Vision {

  /** A decoded image, as `cv2.imread` returns it. */
  datatype Image = Image(pixels: seq<int>)

  /** A face location as `face_recognition.face_locations` reports it. */
  datatype Location = Location(top: int, right: int, bottom: int, left: int)

  /** A face box `(x, y, w, h)` as the OpenCV Haar cascade reports it. */
  datatype Box = Box(x: int, y: int, w: int, h: int)

  /** A face encoding (a numeric vector). */
  type Encoding = seq<real>

  /** The `face_recognition` package: `face_locations`, the encoding of one
      located face (`face_encodings(image, locations)[i]`) and `face_distance`. */
  datatype FaceLibrary = FaceLibrary(
    locate: Image -> seq<Location>,
    encode: (Image, Location) -> Encoding,
    distance: (Encoding, Encoding) -> real)

  /** The tolerance the service passes to `compare_faces`. */
  const Tolerance: real := 0.6

  /** `compare_faces([known], probe, tolerance=0.6)[0]`: the distance is at most the tolerance. */
  predicate Matches(lib: FaceLibrary, known: Encoding, probe: Encoding) {
    lib.distance(known, probe) <= Tolerance
  }
}
