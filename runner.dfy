/** `overlayFacesWithEmoji` (src/faceswap.js:184-218) and `overlayEmoji`
    (src/faceswap.js:166-182) as the source writes them: one run updates the
    shared `tmpEmojis` list and the composite in place, face after face, and
    its `finally` block hands the list to cleanup. Each method is proved to
    do exactly what the functions of module Pipeline describe, so every
    property proved there holds of this code. */
module Runner {

  import opened Wrappers
  import opened Detection
  import opened Classifier
  import opened Geometry
  import opened PathName
  import opened Pipeline

  class OverlayRun {
    /** `tmpEmojis`: the temporary files created so far. */
    var tracked: seq<string>
    /** The `-page` layers of the composite being built. */
    var layers: seq<Layer>
    /** The `createTempEmoji` calls made. */
    var requests: seq<RenderRequest>
    /** The `uploadImage` calls made. */
    var uploads: seq<Upload>
    /** Each list the `finally` block handed to cleanup. */
    var released: seq<seq<string>>

    constructor ()
      ensures tracked == [] && layers == [] && requests == []
      ensures uploads == [] && released == []
    {
      tracked := [];
      layers := [];
      requests := [];
      uploads := [];
      released := [];
    }

    /** One face: size the emoji from the bounding box, classify the face,
        render the emoji, and only once its file is written track it and stack
        its layer. The returned error is the step's rejection. */
    method OverlayEmoji(face: Face, render: RenderStep, image: Size) returns (failure: Option<Error>)
      modifies this
      ensures Overlay(layers, tracked, requests, failure)
        == EmojiStep(Overlay(old(layers), old(tracked), old(requests), None), Task(face, render, image))
      ensures uploads == old(uploads) && released == old(released)
    {
      var size := EmojiSize(face.box, image);
      var emoji := GetEmojiType(face);
      if emoji.Err? {
        return Some(emoji.error);
      }
      var path := EmojiPath(render);
      requests := requests + [RenderRequest(emoji.value, size, path)];
      if render.write.Fail? {
        return Some(render.write.error);
      }
      tracked := tracked + [path];
      layers := layers + [Layer(Position(face.box, image), path)];
      failure := None;
    }

    /** `BbPromise.reduce` over the faces in detection order: each face is
        overlaid in turn and the first rejection ends the reduction. */
    method OverlayEachFace(faces: seq<Face>, renders: seq<RenderStep>, image: Size) returns (failure: Option<Error>)
      requires |renders| == |faces|
      modifies this
      ensures Overlay(layers, tracked, requests, failure)
        == OverlayFaces(Overlay(old(layers), old(tracked), old(requests), None), Tasks(faces, renders, image))
      ensures uploads == old(uploads) && released == old(released)
    {
      ghost var ts := Tasks(faces, renders, image);
      ghost var start := Overlay(layers, tracked, requests, None);
      failure := None;
      var k := 0;
      while k < |faces| && failure.None?
        invariant 0 <= k <= |faces|
        invariant uploads == old(uploads) && released == old(released)
        invariant OverlayFaces(Overlay(layers, tracked, requests, failure), ts[k..]) == OverlayFaces(start, ts)
      {
        assert ts[k..][0] == ts[k];
        assert ts[k..][1..] == ts[k + 1..];
        failure := OverlayEmoji(faces[k], renders[k], image);
        k := k + 1;
      }
      if failure.Some? {
        OverlayFacesStops(Overlay(layers, tracked, requests, failure), ts[k..]);
      } else {
        assert ts[k..] == [];
      }
    }

    /** One run over an image and its detected faces. Its outcome, the final
        `tmpEmojis`, the composite, and every render, upload and cleanup call
        are those of `Run`. */
    method OverlayFacesWithEmoji(imagePath: string, faces: seq<Face>, env: Env) returns (outcome: Outcome)
      requires |env.renders| == |faces|
      modifies this
      ensures Trace(outcome, tracked, layers, requests, uploads, released) == Run(imagePath, faces, env)
    {
      tracked, layers, requests, uploads, released := [], [], [], [], [];
      // try
      if env.size.Err? {
        outcome := Fail(env.size.error);
      } else if env.baseWrite.Fail? {
        outcome := env.baseWrite;
      } else {
        var image := env.size.value;
        var base := BasePath(imagePath, env);
        tracked := [base];
        layers := [BaseLayer(base)];
        var failure := OverlayEachFace(faces, env.renders, image);
        ghost var st := OverlayFaces(Start(base), Tasks(faces, env.renders, image));
        assert st == Overlay(layers, tracked, requests, failure);
        if failure.Some? {
          outcome := Fail(failure.value);
        } else {
          if env.encode.Err? {
            outcome := Fail(env.encode.error);
          } else {
            uploads := uploads + [Upload(imagePath, env.encode.value)];
            outcome := env.upload;
          }
        }
      }
      // finally
      if |tracked| > 0 {
        released := released + [tracked];
      }
    }
  }
}
