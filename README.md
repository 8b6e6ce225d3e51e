# Emoticon face-swap: a Dafny model of the overlay core

The system reacts to images uploaded to an S3 bucket. It asks a face
detector for the faces in each image, picks for every face the emoji that
matches its most confident emotion, draws that emoji over the face, and
uploads the composite. This project models the decision logic of
`src/faceswap.js` and proves what it promises:

- **Event filter** (`getImagesFromEvent`, module `Events`): which uploaded
  keys are worth looking at. Node's POSIX `path.extname` is modelled in
  module `PathName`, and ASCII lower-casing in module `Strings`.
- **Face filter** (the accumulator of `detectFacesOnImages`, module
  `Events`): only images with at least one face are kept.
- **Emotion classifier** (`getEmojiType`, module `Classifier`): the unseeded
  `reduce` that keeps the first most-confident emotion, and the `switch`
  onto the eight emoji names.
- **Placement** (`overlayEmoji`, module `Geometry`): the emoji size
  (`parseInt` truncation plus a 10-pixel margin) and its `-page` offset.
- **The per-image run** (`overlayFacesWithEmoji` and `overlayEmoji`). Module
  `Pipeline` describes the run as a function `Run` of the outcomes of its
  external steps and proves the run's properties about it. Module `Runner`
  writes the same run the way the source does: a class `OverlayRun` whose
  `tmpEmojis` list, composite layers and call logs are updated in place by a
  loop over the faces, with a `try`/`finally` shape. `OverlayEmoji` is proved
  to leave exactly the state of one step `EmojiStep`, `OverlayEachFace` that
  of the fold `OverlayFaces`, and `OverlayFacesWithEmoji` the whole `Trace`
  that `Run` describes.

Every external step is an input. This covers the size probe, the write of
the base image to disk, each emoji render, the JPEG encoding and the
upload. Each one either succeeds or fails with an error, and the `Env`
record holds one outcome per step. The fresh identifiers that `uuidV4`
would draw are part of `Env` too. The composite is the list of its
`-page` layers, each a numeric offset and a file path. Cleanup is
recorded as the tracked list handed to the cleanup call.

Behaviours of the code worth stating outright, since a reader might expect
otherwise:

- Emoji sizes are truncated (`parseInt`), not rounded. A box 0.999 wide on
  a 10-pixel image gives 9 + 10 = 19.
- Out-of-range bounding boxes are not clamped. A negative fraction gives a
  side below the 10-pixel margin only once its pixel extent reaches -1: a
  width of -0.001 on a 200-pixel image is -0.2 pixels, truncated to 0, so
  the side is exactly the margin.
- A face whose `Emotions` list is present but empty does not classify as
  `unknown`. The unseeded `reduce` throws, and that error ends the run.
- Cleanup passes the tracked list to `BbPromise.all` together with a mapper
  that `all` ignores, so no file is deleted. The model records the hand-off
  and claims no deletion.
- There is only one overlay mode: every detected face gets the emoji of its
  own emotion. The source has no single-face, fixed-emoji mode.

## Model

| member | source | states |
|---|---|---|
| Classifier.GetEmojiType | src/faceswap.js:141-164 | `getEmojiType` fails exactly when `Emotions` is present but empty, with the error of the unseeded `reduce`. A face without `Emotions` is `unknown`. Its full characterisation is `Classifier.GetEmojiTypeSpec`. |
| Classifier.GetEmojiTypeSpec | src/faceswap.js:141-164 | A face without `Emotions` gets `unknown`. A present but empty list is the error of the unseeded `reduce`. Otherwise the result is the `switch` applied to the label of the first most-confident emotion. |
| Classifier.Reduce | src/faceswap.js:144-149 | The fold body with its strict `<`: the result is the seed or one of the entries, and its confidence is at least the seed's and every entry's. |
| Classifier.MostLikely | src/faceswap.js:144-149 | The unseeded `reduce` returns an entry of the list whose confidence is the highest. `Classifier.MostLikelyIsFirstMax` fixes which one. |
| Classifier.MostLikelyIsFirstMax | src/faceswap.js:144-149 | The fold returns an entry whose confidence is at least every entry's and strictly above every earlier entry's, so the earliest maximum wins. |
| Classifier.ReduceFromPrefix | src/faceswap.js:144-149 | Continuing the fold from the first maximum of a prefix yields the first maximum of the whole list. |
| Classifier.ExtendFirstMax | src/faceswap.js:145-147 | One step of the fold body, with its strict `<`, keeps the first maximum of the prefix seen so far. |
| Classifier.TieKeepsEarliest | src/faceswap.js:144-149 | With two equally confident leading emotions, HAPPY then CALM, the result is `happy`. |
| Classifier.FromType | src/faceswap.js:151-163 | A label maps to a named emoji exactly when it is one of the seven upper-case known labels, and then to its lower-case spelling. Every other label maps to `unknown`, including `UNKNOWN` and lower-case spellings. |
| Classifier.EmojiType.Name | src/faceswap.js:159-162 | Every result is one of the eight emoji names. |
| Geometry.Trunc | src/faceswap.js:169-170 | `parseInt` on a number is its integer part, truncated toward zero, for both signs. |
| Geometry.EmojiSize | src/faceswap.js:169-170 | Each side is the truncated pixel extent of the box plus 10. It is below the 10-pixel margin exactly when the box's extent on that axis is -1 pixel or less. `Geometry.EmojiSizeBounds` bounds it for ordinary boxes. |
| Geometry.EmojiSizeBounds | src/faceswap.js:169-170 | For non-negative box fractions, each emoji side is the truncated pixel extent of the box plus 10. So each side is at least 10, at most the real extent plus 10, and falls short of the real extent plus 10 by less than one pixel. |
| Geometry.Position | src/faceswap.js:177 | The `-page` offset is the box's top-left corner in pixels, and it lies inside the image whenever the box's corner fractions are between 0 and 1. |
| Geometry.EmojiSizeExamples | src/faceswap.js:169-170 | Half of a 200-pixel width gives 110, and 0.999 of 10 pixels gives 19. |
| Strings.LowerAscii | src/faceswap.js:30 | `toLowerCase` on ASCII text keeps the length, turns each capital into its own lower-case letter (code point plus 32), changes no other character, and leaves no capital letter. |
| PathName.Extname | src/faceswap.js:30 | `path.extname` returns nothing or text that starts with `.`. `PathName.ExtnameOfPath` reduces any key in a folder to its file name, and `PathName.ExtnameOfName` gives the extension of a file name. |
| PathName.LastIndexOfSpec | src/faceswap.js:30 | The index found is the last occurrence of the character, or -1 when there is none. |
| PathName.LastSegmentSpec | src/faceswap.js:30 | The last segment is a suffix of the path and contains no `/`. |
| PathName.ExtnameShape | src/faceswap.js:30 | `path.extname` yields either nothing or a `.` followed by characters that are neither `.` nor `/`. |
| PathName.ExtnameOfName | src/faceswap.js:30 | For a name without `/`, the extension runs from its last `.`, and is empty when that dot is the first character or missing. |
| PathName.ExtnameOfPath | src/faceswap.js:30 | Only the last segment decides the extension: the key `dir/name`, with `name` non-empty and free of `/`, has the extension of `name`, whatever `dir` holds. So `uploads/a.b.JPG` has the extension of `a.b.JPG`. |
| PathName.ExtnameTrailingDot | src/faceswap.js:30 | A trailing dot is an extension of its own: `index.` gives `.`. |
| PathName.ExtnameHidden | src/faceswap.js:30 | A name whose only dot is its first character has no extension. |
| PathName.ExtnameNoDot | src/faceswap.js:30 | A name without a dot has no extension. |
| PathName.TmpPath | src/faceswap.js:106 | `getTmpPath` names a file directly under `/tmp/` whose name starts with the fresh identifier. `PathName.TmpPathKeepsExtname` gives its extension. |
| PathName.TmpPathKeepsExtname | src/faceswap.js:106 | `getTmpPath` keeps the extension of the name it is given when the fresh identifier has no `/` and no `.`. |
| PathName.LastSegmentOfJoin | src/faceswap.js:106 | The last segment of `dir/tail` is `tail` when `tail` has no `/`. |
| PathName.ExtnameOfJoin | src/faceswap.js:106 | The extension of `dir/<id><ext>` is `ext`. |
| Events.ImagesFromEvent | src/faceswap.js:27-38 | `getImagesFromEvent` selects at most one key per record. `Events.ImagesFromOneRecord` and `Events.ImagesFromEventAppend` fix the result as the keys of the accepted records, in order. |
| Events.Collect | src/faceswap.js:27-38 | The `reduce` only pushes: the result is at least as long as the accumulator and gains at most one key per record. |
| Events.CollectExtends | src/faceswap.js:27-38 | The accumulator is never rewritten: the result is the accumulator followed by the keys selected from the records. |
| Events.ImagesFromOneRecord | src/faceswap.js:28-34 | A single record yields its key exactly when its bucket is the configured one and its lower-cased extension is allowed, and otherwise nothing. |
| Events.ImagesFromEventAppend | src/faceswap.js:27-38 | Filtering a concatenation gives the concatenation of the filtered parts. With the one-record case, the result is the keys of the accepted records, in record order, duplicates kept. |
| Events.ImagesFromEventSound | src/faceswap.js:27-38 | Every selected key is the key of some accepted record. |
| Events.ImagesWithFaces | src/faceswap.js:57-59 | The accumulator never drops an image it already holds. |
| Events.ImagesWithFacesKeys | src/faceswap.js:57-59 | An image is in the result exactly when some detection result for it found a face (or it was there before). No image is kept with an empty face list. |
| Events.ImagesWithFacesValues | src/faceswap.js:57-59 | The faces recorded for an image are those of the last detection result for it that found faces. A later result without faces leaves the entry in place, and an image no result found faces in keeps the entry it had before. |
| Pipeline.EmojiStep | src/faceswap.js:166-182 | One `overlayEmoji` step leaves the fold running exactly when the face classifies and its emoji is written. It only ever appends to the tracked list, the layers and the render calls. |
| Pipeline.OverlayFaces | src/faceswap.js:198-201 | The reduction only appends to the tracked list, the layers and the render calls. A rejected state is final. The `Pipeline.OverlayFaces*` lemmas give its exact result. |
| Pipeline.OverlayFacesFailure | src/faceswap.js:198-201 | The reduction over faces stops with the error of the first face that fails to classify or render. It ends without error when no face fails. |
| Pipeline.OverlayFacesTracked | src/faceswap.js:173-175 | Each emoji path is pushed onto `tmpEmojis` after its write succeeds, in face order, up to the first failing face. |
| Pipeline.OverlayFacesLayers | src/faceswap.js:177-181 | Each rendered face adds one `-page` layer, in face order, up to the first failing face. |
| Pipeline.OverlayFacesRequests | src/faceswap.js:169-173 | The renderer is called for every completed face, and also for the failing face when that face's classification succeeded. |
| Pipeline.OverlayFacesStops | src/faceswap.js:198-201 | Once a step has rejected, the reduction changes nothing further. |
| Pipeline.Run | src/faceswap.js:184-218 | A run uploads at most once, and only the encoded composite of a run whose size probe, base write and encoding succeeded. A run that passes has uploaded. The `Pipeline.Run*` lemmas state the rest. |
| Pipeline.Finish | src/faceswap.js:198-216 | After the reduction, the composite is uploaded exactly when the reduction passed and encoding succeeded. A pass needs a successful upload. The final tracked list is the reduction's, and cleanup gets it when it is non-empty. |
| Pipeline.RunOutcome | src/faceswap.js:184-218 | The run's outcome is the first failure among size probe, base write, each face's classification and render, encoding and upload. When none fails, the run succeeds. The `catch` rethrows unchanged. |
| Pipeline.RunEarlyFailure | src/faceswap.js:187-193 | A failing size probe or base write ends the run with that error, with nothing tracked, composed, rendered, uploaded or cleaned up. |
| Pipeline.RunTrackedPrefix | src/faceswap.js:173-175 | On every exit path the tracked list is a prefix of [temp base, emoji 1, ..., emoji n]. A non-empty list means the base write succeeded, and every tracked emoji is one whose write succeeded. |
| Pipeline.RunSuccess | src/faceswap.js:184-207 | After success, the tracked list is exactly [temp base, emoji 1, ..., emoji n]. The layers are the base at (0, 0), then face k's emoji at (Left·W, Top·H). One render per face is requested, with the face's own type and size. The composite is uploaded once, and the whole tracked list is handed to cleanup. |
| Pipeline.RunCleanup | src/faceswap.js:210-216 | Cleanup is called once, with the final tracked list, exactly when that list is non-empty. It is skipped exactly when the run failed before the base image was on disk, and such a run has failed. |
| Pipeline.RunRequests | src/faceswap.js:169-173 | At most one render per face is requested, in face order, with that face's emoji and size. No render is requested before the base image is on disk. |
| Pipeline.TrackedExtensions | src/faceswap.js:106-110 | The base image's temporary copy keeps the uploaded key's extension, and every emoji file is a `.png`. |
| Runner.OverlayRun.OverlayEmoji | src/faceswap.js:166-182 | Updating the fields in place leaves exactly the state of one fold step. The render request is always logged once classification succeeds, and the emoji path and layer are added only after the write succeeds. |
| Runner.OverlayRun.OverlayEachFace | src/faceswap.js:198-201 | The loop over faces, stopping at the first rejection, leaves exactly the state of the fold over all faces. |
| Runner.OverlayRun.OverlayFacesWithEmoji | src/faceswap.js:184-218 | The imperative run, with its `try` and `finally` blocks, ends with the outcome, `tmpEmojis`, layers, render calls, uploads and cleanup calls of `Run`. So every property proved about `Run` holds for it. |

## Left out

- AWS calls (`rekognition.detectFaces`, `s3.getObject`, `s3.putObject`) are network I/O. Only their outcomes enter the model, as the `Env` steps and the detection results fed to the face filter.
- The error path of `detectFacesOnImages`, where a failed detector call is followed by a read of `data.FaceDetails`, is network-error plumbing and is not modelled.
- ImageMagick through `gm` (size probe, resize, write, `mosaic`, JPEG encoding) is a foreign library. Each call is an opaque step that succeeds or fails, and pixels are not modelled.
- `uuidV4` is random. The fresh identifiers are inputs, and the extension lemmas assume they contain neither `/` nor `.`, as a UUID does not.
- `fs.unlink` is filesystem I/O, and the cleanup call never reaches it anyway. Cleanup is modelled as the list handed over.
- Bluebird scheduling is not modelled: the concurrent fan-out of `processImages` over images, and the coroutine and handler callback plumbing. Within one image the run is sequential, as modelled.
- Logging and the environment settings (bucket name, allowed extensions, output folder) are plumbing. The bucket and the already-split allowed list are parameters.
- The upload key built with `path.join` and `path.basename` is path normalisation with no decision logic. `Upload` records the image key and the encoded bytes.
- The `xy` string is a float-to-string rendering. Offsets are kept as numeric pairs.
- Geometry.EmojiSize: computes the pixel extent `box × image size` exactly, over the reals, where the program multiplies two IEEE doubles before `parseInt`. When that product is close to a whole number, the emoji side can differ by one pixel from the program's rounded product. For example, `0.29 * 100` evaluates to 28.999999999999996 in JavaScript, so the program draws a 38-pixel side where the model gives 39.
- Geometry.Trunc: models `parseInt` on an ordinary number. It does not model the exponent-notation strings that JavaScript produces for very large or very small numbers, or NaN from missing fields.
- Strings.LowerAscii: lower-cases ASCII capitals only. Non-ASCII case mapping of `toLowerCase` is out of scope, because extensions and emotion labels are ASCII.
- A face without a `BoundingBox` makes `boundingBox.Width` throw a TypeError, which rejects that `overlayEmoji` step and fails the run. The model's faces always carry a box, so this failure is not modelled. An emotion without `Confidence` compares false under `<` and so never replaces the running favourite; the model's emotions always carry a confidence.
- Events.ImagesWithFaces: a later result that found faces for the same key replaces the earlier entry, as the object assignment does, and a result without faces leaves it in place. Key order (`Object.keys`) is not modelled, because only membership and values matter to the later steps.
