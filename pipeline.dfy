/** The per-image run of `overlayFacesWithEmoji` (src/faceswap.js:184-218)
    and `overlayEmoji` (src/faceswap.js:166-182) as a function of the outcomes
    of its external steps, with the properties the run promises. The class in
    module Runner executes the same run statement by statement and is proved
    equal to `Run`. */
module Pipeline {

  import opened Wrappers
  import opened Detection
  import opened Classifier
  import opened Geometry
  import opened PathName

  /** An encoded image. */
  type Bytes = seq<bv8>

  /** The emoji render for one face: the fresh identifier that names its
      temporary file, and whether resizing and writing it succeeded. */
  datatype RenderStep = RenderStep(id: string, write: Outcome)

  /** What the outside world answers during one run: the size probe, the fresh
      identifier and the write of the base image to disk, one render per face,
      the JPEG encoding of the composite, and the upload. */
  datatype Env = Env(
    size: Result<Size>,
    baseId: string,
    baseWrite: Outcome,
    renders: seq<RenderStep>,
    encode: Result<Bytes>,
    upload: Outcome)

  /** A call of `createTempEmoji`: which emoji, at what size, into which file. */
  datatype RenderRequest = RenderRequest(emoji: EmojiType, size: Extent, path: string)

  /** A call of `uploadImage`. */
  datatype Upload = Upload(imagePath: string, body: Bytes)

  /** One face as the fold sees it: its classification (which may be the
      error thrown by the unseeded `reduce`), the emoji size and `-page` offset
      computed from its bounding box, the temporary file its emoji goes to, and
      whether writing that file succeeded. Classification and placement are
      pure and total, so computing them up front and reading them at the
      face's turn is the same as computing them there. */
  datatype FaceTask = FaceTask(emoji: Result<EmojiType>, size: Extent, at: Point, path: string, write: Outcome)

  /** The state threaded through the fold over faces: the `-page` layers of the
      running composite, the shared `tmpEmojis` list, the render calls made, and
      the failure that stopped the fold, if any. */
  datatype Overlay = Overlay(layers: seq<Layer>, tracked: seq<string>, requests: seq<RenderRequest>, failure: Option<Error>)

  /** Everything one run does that can be observed: its outcome, the final
      tracked list, the composite's layers, the render and upload calls, and
      each list handed to cleanup. */
  datatype Trace = Trace(
    outcome: Outcome,
    tracked: seq<string>,
    layers: seq<Layer>,
    requests: seq<RenderRequest>,
    uploads: seq<Upload>,
    released: seq<seq<string>>)

  /** `getTmpPath(imagePath)`: the temporary copy of the base image. */
  function BasePath(imagePath: string, env: Env): string {
    TmpPath(env.baseId, imagePath)
  }

  /** `getTmpPath('emoji.png')`: the temporary file of one rendered emoji. */
  function EmojiPath(r: RenderStep): string {
    TmpPath(r.id, "emoji.png")
  }

  /** The composite before any face: the base image at offset (0, 0). */
  function BaseLayer(base: string): Layer {
    Layer(Point(0.0, 0.0), base)
  }

  /** What `overlayEmoji` computes for one face of an image of the given size. */
  function Task(face: Face, render: RenderStep, image: Size): FaceTask {
    FaceTask(GetEmojiType(face), EmojiSize(face.box, image), Position(face.box, image), EmojiPath(render), render.write)
  }

  /** The faces of one image paired with their renders. */
  function Tasks(faces: seq<Face>, renders: seq<RenderStep>, image: Size): (ts: seq<FaceTask>)
    requires |faces| == |renders|
    ensures |ts| == |faces|
  {
    seq(|faces|, k requires 0 <= k < |faces| => Task(faces[k], renders[k], image))
  }

  /** The render call made for a face whose classification succeeded. */
  function RequestFor(t: FaceTask): RenderRequest
    requires t.emoji.Ok?
  {
    RenderRequest(t.emoji.value, t.size, t.path)
  }

  /** The layer a rendered face adds to the composite. */
  function LayerFor(t: FaceTask): Layer {
    Layer(t.at, t.path)
  }

  /** One `overlayEmoji` step: a face whose classification threw stops the
      fold; otherwise the emoji is asked for at the face's size, and only when
      its write succeeded is its file tracked and its layer stacked. */
  function EmojiStep(st: Overlay, t: FaceTask): (r: Overlay)
    requires st.failure.None?
    ensures r.failure.None? <==> t.emoji.Ok? && t.write.Pass?
    ensures st.tracked <= r.tracked && st.layers <= r.layers && st.requests <= r.requests
  {
    match t.emoji
    case Err(e) => st.(failure := Some(e))
    case Ok(_) =>
      var asked := st.(requests := st.requests + [RequestFor(t)]);
      if t.write.Fail? then asked.(failure := Some(t.write.error))
      else asked.(tracked := asked.tracked + [t.path], layers := asked.layers + [LayerFor(t)])
  }

  /** `BbPromise.reduce` over the faces in detection order; the first rejected
      step ends it. */
  function OverlayFaces(st: Overlay, ts: seq<FaceTask>): (r: Overlay)
    ensures st.failure.Some? ==> r == st
    ensures st.tracked <= r.tracked && st.layers <= r.layers && st.requests <= r.requests
    decreases |ts|
  {
    if ts == [] || st.failure.Some? then st
    else OverlayFaces(EmojiStep(st, ts[0]), ts[1..])
  }

  /** The `finally` block: cleanup is called with the tracked list only when
      that list is non-empty. */
  function Cleanup(tracked: seq<string>): seq<seq<string>> {
    if |tracked| > 0 then [tracked] else []
  }

  /** The fold's starting state once the base image is on disk. */
  function Start(base: string): Overlay {
    Overlay([BaseLayer(base)], [base], [], None)
  }

  /** One run of `overlayFacesWithEmoji`. */
  function Run(imagePath: string, faces: seq<Face>, env: Env): (r: Trace)
    requires |env.renders| == |faces|
    ensures r.uploads != [] ==>
      env.size.Ok? && env.baseWrite.Pass? && env.encode.Ok? && r.uploads == [Upload(imagePath, env.encode.value)]
    ensures r.outcome.Pass? ==> r.uploads != [] && env.upload.Pass?
  {
    match env.size
    case Err(e) => Trace(Fail(e), [], [], [], [], [])
    case Ok(image) =>
      if env.baseWrite.Fail? then Trace(env.baseWrite, [], [], [], [], [])
      else
        Finish(imagePath, env, OverlayFaces(Start(BasePath(imagePath, env)), Tasks(faces, env.renders, image)))
  }

  /** The rest of the run once the fold is over: a rejected fold is rethrown,
      otherwise the composite is encoded and uploaded; either way the `finally`
      block runs. */
  function Finish(imagePath: string, env: Env, st: Overlay): (r: Trace)
    ensures r.uploads != [] <==> st.failure.None? && env.encode.Ok?
    ensures r.uploads != [] ==> r.uploads == [Upload(imagePath, env.encode.value)]
    ensures r.outcome.Pass? ==> r.uploads != [] && env.upload.Pass?
    ensures r.tracked == st.tracked && r.released == Cleanup(st.tracked)
  {
    if st.failure.Some? then
      Trace(Fail(st.failure.value), st.tracked, st.layers, st.requests, [], Cleanup(st.tracked))
    else if env.encode.Err? then
      Trace(Fail(env.encode.error), st.tracked, st.layers, st.requests, [], Cleanup(st.tracked))
    else
      Trace(env.upload, st.tracked, st.layers, st.requests, [Upload(imagePath, env.encode.value)], Cleanup(st.tracked))
  }

  // ---------------------------------------------------------------------
  // Reference definitions the run is measured against.

  /** What classifying a face and rendering its emoji amount to. */
  function FaceOutcome(face: Face, render: RenderStep): Outcome {
    match GetEmojiType(face)
    case Err(e) => Fail(e)
    case Ok(_) => render.write
  }

  /** The same, read off a prepared face. */
  function TaskOutcome(t: FaceTask): Outcome {
    if t.emoji.Err? then Fail(t.emoji.error) else t.write
  }

  /** The run's external steps in program order, one entry per step. */
  function Steps(faces: seq<Face>, env: Env): seq<Outcome>
    requires |env.renders| == |faces|
  {
    [env.size.ToOutcome(), env.baseWrite]
    + seq(|faces|, k requires 0 <= k < |faces| => FaceOutcome(faces[k], env.renders[k]))
    + [env.encode.ToOutcome(), env.upload]
  }

  /** The first failing step's outcome, or `Pass` when none fails. */
  function FirstFailure(steps: seq<Outcome>): Outcome {
    if steps == [] then Pass
    else if steps[0].Fail? then steps[0]
    else FirstFailure(steps[1..])
  }

  /** How many leading faces are classified and rendered successfully. */
  function Completed(ts: seq<FaceTask>): (m: nat)
    ensures m <= |ts|
    ensures m < |ts| ==> TaskOutcome(ts[m]).Fail?
    ensures forall k :: 0 <= k < m ==> ts[k].emoji.Ok? && ts[k].write.Pass?
    decreases |ts|
  {
    if ts == [] || TaskOutcome(ts[0]).Fail? then 0 else 1 + Completed(ts[1..])
  }

  /** The number of faces for which the renderer is asked: the completed
      ones, plus the failing one when its classification succeeded. */
  function Attempted(ts: seq<FaceTask>): (a: nat)
    ensures Completed(ts) <= a <= |ts|
    ensures forall k :: 0 <= k < a ==> ts[k].emoji.Ok?
  {
    var m := Completed(ts);
    if m < |ts| && ts[m].emoji.Ok? then m + 1 else m
  }

  function EmojiPaths(ts: seq<FaceTask>): seq<string> {
    seq(|ts|, k requires 0 <= k < |ts| => ts[k].path)
  }

  function EmojiLayers(ts: seq<FaceTask>): seq<Layer> {
    seq(|ts|, k requires 0 <= k < |ts| => LayerFor(ts[k]))
  }

  function Requests(ts: seq<FaceTask>): seq<RenderRequest>
    requires forall k :: 0 <= k < |ts| ==> ts[k].emoji.Ok?
  {
    seq(|ts|, k requires 0 <= k < |ts| => RequestFor(ts[k]))
  }

  // ---------------------------------------------------------------------
  // The fold over faces.

  /** A face that classifies and renders adds its request, its file and its
      layer, and lets the fold go on. */
  lemma EmojiStepPass(st: Overlay, t: FaceTask)
    requires st.failure.None? && TaskOutcome(t).Pass?
    ensures EmojiStep(st, t) == Overlay(st.layers + [LayerFor(t)], st.tracked + [t.path], st.requests + [RequestFor(t)], None)
  {
  }

  /** The fold ends with the error of the first face that fails, and without
      error when none does. */
  lemma {:induction false} OverlayFacesFailure(st: Overlay, ts: seq<FaceTask>)
    requires st.failure.None?
    ensures var m := Completed(ts);
      OverlayFaces(st, ts).failure == (if m == |ts| then None else Some(TaskOutcome(ts[m]).error))
    decreases |ts|
  {
    if ts != [] && TaskOutcome(ts[0]).Pass? {
      EmojiStepPass(st, ts[0]);
      OverlayFacesFailure(EmojiStep(st, ts[0]), ts[1..]);
    }
  }

  /** Before the first failing face, every face's file is tracked, in order. */
  lemma {:induction false} OverlayFacesTracked(st: Overlay, ts: seq<FaceTask>)
    requires st.failure.None?
    ensures OverlayFaces(st, ts).tracked == st.tracked + EmojiPaths(ts[..Completed(ts)])
    decreases |ts|
  {
    if ts != [] && TaskOutcome(ts[0]).Pass? {
      EmojiStepPass(st, ts[0]);
      OverlayFacesTracked(EmojiStep(st, ts[0]), ts[1..]);
      CompletedCons(ts);
      EmojiPathsCons(ts[0], ts[1..][..Completed(ts[1..])]);
    } else {
      assert EmojiPaths(ts[..0]) == [];
    }
  }

  /** Before the first failing face, every face's layer is stacked, in order. */
  lemma {:induction false} OverlayFacesLayers(st: Overlay, ts: seq<FaceTask>)
    requires st.failure.None?
    ensures OverlayFaces(st, ts).layers == st.layers + EmojiLayers(ts[..Completed(ts)])
    decreases |ts|
  {
    if ts != [] && TaskOutcome(ts[0]).Pass? {
      EmojiStepPass(st, ts[0]);
      OverlayFacesLayers(EmojiStep(st, ts[0]), ts[1..]);
      CompletedCons(ts);
      EmojiLayersCons(ts[0], ts[1..][..Completed(ts[1..])]);
    } else {
      assert EmojiLayers(ts[..0]) == [];
    }
  }

  lemma AttemptedStep(ts: seq<FaceTask>)
    requires ts != [] && TaskOutcome(ts[0]).Pass?
    ensures Completed(ts) == 1 + Completed(ts[1..])
    ensures Attempted(ts) == 1 + Attempted(ts[1..])
  {
    var m := Completed(ts);
    assert m < |ts| ==> ts[m] == ts[1..][m - 1];
  }

  /** The completed prefix of a list whose first face passes is that face
      followed by the completed prefix of the rest. */
  lemma CompletedCons(ts: seq<FaceTask>)
    requires ts != [] && TaskOutcome(ts[0]).Pass?
    ensures ts[..Completed(ts)] == [ts[0]] + ts[1..][..Completed(ts[1..])]
  {
    AttemptedStep(ts);
    var m := Completed(ts);
    assert ts[..m] == [ts[0]] + ts[..m][1..];
    assert ts[..m][1..] == ts[1..][..m - 1];
  }

  lemma EmojiPathsCons(t: FaceTask, rest: seq<FaceTask>)
    ensures EmojiPaths([t] + rest) == [t.path] + EmojiPaths(rest)
  {
    var ts := [t] + rest;
    forall k | 0 <= k < |rest| ensures ts[k + 1] == rest[k] { }
  }

  lemma EmojiLayersCons(t: FaceTask, rest: seq<FaceTask>)
    ensures EmojiLayers([t] + rest) == [LayerFor(t)] + EmojiLayers(rest)
  {
    var ts := [t] + rest;
    var whole, parts := EmojiLayers(ts), [LayerFor(t)] + EmojiLayers(rest);
    forall k | 0 <= k < |whole| ensures whole[k] == parts[k] {
      if k > 0 { assert ts[k] == rest[k - 1]; }
    }
  }

  lemma RequestsOfCons(t: FaceTask, rest: seq<FaceTask>)
    requires t.emoji.Ok? && forall k :: 0 <= k < |rest| ==> rest[k].emoji.Ok?
    ensures var ts := [t] + rest;
      (forall k :: 0 <= k < |ts| ==> ts[k].emoji.Ok?) &&
      Requests(ts) == [RequestFor(t)] + Requests(rest)
  {
    var ts := [t] + rest;
    forall k | 0 <= k < |rest| ensures ts[k + 1] == rest[k] { }
  }

  lemma RequestsCons(ts: seq<FaceTask>)
    requires ts != [] && TaskOutcome(ts[0]).Pass?
    ensures Requests(ts[..Attempted(ts)]) == [RequestFor(ts[0])] + Requests(ts[1..][..Attempted(ts[1..])])
  {
    AttemptedStep(ts);
    var a := Attempted(ts);
    var rest := ts[1..][..a - 1];
    assert ts[..a] == [ts[0]] + rest by {
      assert ts[..a][1..] == rest;
    }
    forall k | 0 <= k < |rest| ensures rest[k].emoji.Ok? {
      assert rest[k] == ts[k + 1];
    }
    RequestsOfCons(ts[0], rest);
  }

  lemma RequestsAtFailure(ts: seq<FaceTask>)
    requires ts != [] && TaskOutcome(ts[0]).Fail?
    ensures Requests(ts[..Attempted(ts)]) == if ts[0].emoji.Ok? then [RequestFor(ts[0])] else []
  {
  }

  /** The renderer is asked for every completed face and for the failing face
      when its classification succeeded, in order. */
  lemma {:induction false} OverlayFacesRequests(st: Overlay, ts: seq<FaceTask>)
    requires st.failure.None?
    ensures OverlayFaces(st, ts).requests == st.requests + Requests(ts[..Attempted(ts)])
    decreases |ts|
  {
    if ts == [] {
      assert Requests([]) == [];
    } else if TaskOutcome(ts[0]).Pass? {
      EmojiStepPass(st, ts[0]);
      OverlayFacesRequests(EmojiStep(st, ts[0]), ts[1..]);
      RequestsCons(ts);
    } else {
      RequestsAtFailure(ts);
    }
  }

  /** A failed fold state is final. */
  lemma OverlayFacesStops(st: Overlay, ts: seq<FaceTask>)
    requires st.failure.Some?
    ensures OverlayFaces(st, ts) == st
  {
  }

  // ---------------------------------------------------------------------
  // Outcomes: the run's result is its first failing step, rethrown unchanged.

  lemma {:induction false} FirstFailureAppend(a: seq<Outcome>, b: seq<Outcome>)
    ensures FirstFailure(a + b) == if FirstFailure(a).Fail? then FirstFailure(a) else FirstFailure(b)
    decreases |a|
  {
    if a == [] {
      assert a + b == b;
    } else {
      assert (a + b)[0] == a[0];
      assert (a + b)[1..] == a[1..] + b;
      FirstFailureAppend(a[1..], b);
    }
  }

  lemma {:induction false} FirstTaskFailure(ts: seq<FaceTask>)
    ensures var m := Completed(ts);
      FirstFailure(seq(|ts|, k requires 0 <= k < |ts| => TaskOutcome(ts[k])))
      == if m == |ts| then Pass else TaskOutcome(ts[m])
    decreases |ts|
  {
    var outs := seq(|ts|, k requires 0 <= k < |ts| => TaskOutcome(ts[k]));
    if ts != [] {
      assert outs[0] == TaskOutcome(ts[0]);
      if TaskOutcome(ts[0]).Pass? {
        var rest := ts[1..];
        FirstTaskFailure(rest);
        assert outs[1..] == seq(|rest|, k requires 0 <= k < |rest| => TaskOutcome(rest[k]));
        var m := Completed(ts);
        assert m == 1 + Completed(rest);
        assert m < |ts| ==> ts[m] == rest[m - 1];
      }
    }
  }

  lemma FirstFailurePair(x: Outcome, y: Outcome)
    ensures FirstFailure([x, y]) == if x.Fail? then x else if y.Fail? then y else Pass
  {
    assert FirstFailure([y]) == if y.Fail? then y else Pass by {
      assert [y][1..] == [];
    }
    assert [x, y][1..] == [y];
  }

  /** The run's outcome is exactly the first failing step among size probe,
      base write, each face's classification and render, encoding and upload;
      when none fails the run succeeds. The `catch` rethrows unchanged and the
      `finally` adds no failure of its own. */
  lemma RunOutcome(imagePath: string, faces: seq<Face>, env: Env)
    requires |env.renders| == |faces|
    ensures Run(imagePath, faces, env).outcome == FirstFailure(Steps(faces, env))
  {
    var outs := seq(|faces|, k requires 0 <= k < |faces| => FaceOutcome(faces[k], env.renders[k]));
    var head := [env.size.ToOutcome(), env.baseWrite];
    var tail := [env.encode.ToOutcome(), env.upload];
    assert Steps(faces, env) == head + (outs + tail);
    FirstFailureAppend(head, outs + tail);
    FirstFailurePair(env.size.ToOutcome(), env.baseWrite);
    if env.size.Ok? && env.baseWrite.Pass? {
      var ts := Tasks(faces, env.renders, env.size.value);
      assert outs == seq(|ts|, k requires 0 <= k < |ts| => TaskOutcome(ts[k]));
      FirstFailureAppend(outs, tail);
      FirstFailurePair(env.encode.ToOutcome(), env.upload);
      FirstTaskFailure(ts);
      OverlayFacesFailure(Start(BasePath(imagePath, env)), ts);
    }
  }

  // ---------------------------------------------------------------------
  // Tracking, composite, render calls, cleanup.

  /** Once the base image is on disk, the run's tracked list, composite and
      render calls are those of the fold, and cleanup gets its tracked list. */
  lemma RunFold(imagePath: string, faces: seq<Face>, env: Env)
    requires |env.renders| == |faces| && env.size.Ok? && env.baseWrite.Pass?
    ensures var st := OverlayFaces(Start(BasePath(imagePath, env)), Tasks(faces, env.renders, env.size.value));
      var t := Run(imagePath, faces, env);
      t.tracked == st.tracked && t.layers == st.layers && t.requests == st.requests && t.released == Cleanup(st.tracked)
  {
    var st := OverlayFaces(Start(BasePath(imagePath, env)), Tasks(faces, env.renders, env.size.value));
    assert Run(imagePath, faces, env) == Finish(imagePath, env, st);
  }

  /** A run that fails before the base image is on disk does nothing else. */
  lemma RunEarlyFailure(imagePath: string, faces: seq<Face>, env: Env)
    requires |env.renders| == |faces| && (env.size.Err? || env.baseWrite.Fail?)
    ensures Run(imagePath, faces, env) == Trace(FirstFailure([env.size.ToOutcome(), env.baseWrite]), [], [], [], [], [])
  {
    FirstFailurePair(env.size.ToOutcome(), env.baseWrite);
  }

  lemma RunTrackedIs(imagePath: string, faces: seq<Face>, env: Env)
    requires |env.renders| == |faces| && env.size.Ok? && env.baseWrite.Pass?
    ensures var ts := Tasks(faces, env.renders, env.size.value);
      Run(imagePath, faces, env).tracked == [BasePath(imagePath, env)] + EmojiPaths(ts[..Completed(ts)])
  {
    RunFold(imagePath, faces, env);
    OverlayFacesTracked(Start(BasePath(imagePath, env)), Tasks(faces, env.renders, env.size.value));
  }

  lemma RunLayersAre(imagePath: string, faces: seq<Face>, env: Env)
    requires |env.renders| == |faces| && env.size.Ok? && env.baseWrite.Pass?
    ensures var ts := Tasks(faces, env.renders, env.size.value);
      Run(imagePath, faces, env).layers == [BaseLayer(BasePath(imagePath, env))] + EmojiLayers(ts[..Completed(ts)])
  {
    RunFold(imagePath, faces, env);
    OverlayFacesLayers(Start(BasePath(imagePath, env)), Tasks(faces, env.renders, env.size.value));
  }

  lemma RunRequestsAre(imagePath: string, faces: seq<Face>, env: Env)
    requires |env.renders| == |faces| && env.size.Ok? && env.baseWrite.Pass?
    ensures var ts := Tasks(faces, env.renders, env.size.value);
      Run(imagePath, faces, env).requests == Requests(ts[..Attempted(ts)])
  {
    RunFold(imagePath, faces, env);
    OverlayFacesRequests(Start(BasePath(imagePath, env)), Tasks(faces, env.renders, env.size.value));
  }

  /** A run passes only when the size probe, the base write, every face and
      the encoding passed. */
  lemma RunPassed(imagePath: string, faces: seq<Face>, env: Env)
    requires |env.renders| == |faces|
    ensures var t := Run(imagePath, faces, env);
      t.outcome.Pass? ==>
        (env.size.Ok? && env.baseWrite.Pass? && env.encode.Ok? &&
         (var ts := Tasks(faces, env.renders, env.size.value);
          Completed(ts) == |ts| && Attempted(ts) == |ts|) &&
         t.uploads == [Upload(imagePath, env.encode.value)] && t.released == [t.tracked])
  {
    if env.size.Ok? && env.baseWrite.Pass? {
      var ts := Tasks(faces, env.renders, env.size.value);
      OverlayFacesFailure(Start(BasePath(imagePath, env)), ts);
      OverlayFacesTracked(Start(BasePath(imagePath, env)), ts);
    }
  }

  /** The temporary file of every face's emoji, in face order. */
  function RenderPaths(renders: seq<RenderStep>): seq<string> {
    seq(|renders|, k requires 0 <= k < |renders| => EmojiPath(renders[k]))
  }

  lemma EmojiPathsOfTasks(faces: seq<Face>, renders: seq<RenderStep>, image: Size, m: nat)
    requires |faces| == |renders| && m <= |faces|
    ensures EmojiPaths(Tasks(faces, renders, image)[..m]) == RenderPaths(renders)[..m]
  {
    var ts := Tasks(faces, renders, image);
    forall k | 0 <= k < m ensures EmojiPaths(ts[..m])[k] == RenderPaths(renders)[k] {
      assert ts[..m][k] == ts[k];
    }
  }

  /** Once the base image is on disk, the tracked list is the base followed by
      the emoji files of the completed faces, each of whose writes succeeded. */
  lemma TrackedAfterBase(imagePath: string, faces: seq<Face>, env: Env)
    requires |env.renders| == |faces| && env.size.Ok? && env.baseWrite.Pass?
    ensures var t := Run(imagePath, faces, env);
      var all := [BasePath(imagePath, env)] + RenderPaths(env.renders);
      0 < |t.tracked| <= |all| && t.tracked == all[..|t.tracked|] &&
      forall k :: 0 <= k < |t.tracked| - 1 ==> env.renders[k].write.Pass?
  {
    var ts := Tasks(faces, env.renders, env.size.value);
    var m := Completed(ts);
    var base, paths := BasePath(imagePath, env), RenderPaths(env.renders);
    RunTrackedIs(imagePath, faces, env);
    EmojiPathsOfTasks(faces, env.renders, env.size.value, m);
    assert ([base] + paths)[..m + 1] == [base] + paths[..m];
    forall k | 0 <= k < m ensures env.renders[k].write.Pass? {
      assert ts[k].write == env.renders[k].write;
    }
  }

  /** Every run tracks a prefix of [base image, emoji of face 1, ..., emoji of
      face n], and each tracked file is one whose write succeeded. */
  lemma RunTrackedPrefix(imagePath: string, faces: seq<Face>, env: Env)
    requires |env.renders| == |faces|
    ensures var t := Run(imagePath, faces, env);
      var all := [BasePath(imagePath, env)] + RenderPaths(env.renders);
      |t.tracked| <= |all| && t.tracked == all[..|t.tracked|] &&
      (|t.tracked| > 0 ==> env.size.Ok? && env.baseWrite.Pass?) &&
      (forall k :: 0 <= k < |t.tracked| - 1 ==> env.renders[k].write.Pass?)
  {
    if env.size.Ok? && env.baseWrite.Pass? {
      TrackedAfterBase(imagePath, faces, env);
    } else {
      RunEarlyFailure(imagePath, faces, env);
    }
  }

  lemma LayersOfTasks(faces: seq<Face>, renders: seq<RenderStep>, image: Size, m: nat)
    requires |faces| == |renders| && m <= |faces|
    ensures var ls := EmojiLayers(Tasks(faces, renders, image)[..m]);
      |ls| == m && forall k :: 0 <= k < m ==> ls[k] == Layer(Position(faces[k].box, image), EmojiPath(renders[k]))
  {
    var ts := Tasks(faces, renders, image);
    forall k | 0 <= k < m ensures EmojiLayers(ts[..m])[k] == Layer(Position(faces[k].box, image), EmojiPath(renders[k])) {
      assert ts[..m][k] == ts[k];
    }
  }

  lemma RequestsOfTasks(faces: seq<Face>, renders: seq<RenderStep>, image: Size)
    requires |faces| == |renders|
    ensures var ts := Tasks(faces, renders, image);
      var rs := Requests(ts[..Attempted(ts)]);
      |rs| == Attempted(ts) &&
      forall k :: 0 <= k < |rs| ==>
        (GetEmojiType(faces[k]).Ok? &&
         rs[k] == RenderRequest(GetEmojiType(faces[k]).value, EmojiSize(faces[k].box, image), EmojiPath(renders[k])))
  {
    var ts := Tasks(faces, renders, image);
    var a := Attempted(ts);
    forall k | 0 <= k < a
      ensures GetEmojiType(faces[k]).Ok? &&
        Requests(ts[..a])[k] == RenderRequest(GetEmojiType(faces[k]).value, EmojiSize(faces[k].box, image), EmojiPath(renders[k]))
    {
      assert ts[..a][k] == ts[k];
    }
  }

  /** A successful run tracked the base image and every face's emoji, composed
      the base at (0, 0) under one layer per face in detection order, asked for
      one emoji per face, of that face's type and size, uploaded the encoded
      composite once, and handed the whole tracked list to cleanup. */
  lemma RunSuccess(imagePath: string, faces: seq<Face>, env: Env)
    requires |env.renders| == |faces|
    ensures var t := Run(imagePath, faces, env);
      t.outcome.Pass? ==>
        env.size.Ok? && env.encode.Ok? &&
        var base, image := BasePath(imagePath, env), env.size.value;
        |t.tracked| == |faces| + 1 && t.tracked[0] == base &&
        (forall k :: 0 <= k < |faces| ==> t.tracked[k + 1] == EmojiPath(env.renders[k])) &&
        |t.layers| == |faces| + 1 && t.layers[0] == BaseLayer(base) &&
        (forall k :: 0 <= k < |faces| ==>
          t.layers[k + 1] == Layer(Position(faces[k].box, image), EmojiPath(env.renders[k]))) &&
        |t.requests| == |faces| &&
        (forall k :: 0 <= k < |faces| ==>
          (GetEmojiType(faces[k]).Ok? &&
           t.requests[k] == RenderRequest(GetEmojiType(faces[k]).value, EmojiSize(faces[k].box, image), EmojiPath(env.renders[k])))) &&
        t.uploads == [Upload(imagePath, env.encode.value)] &&
        t.released == [t.tracked]
  {
    RunPassed(imagePath, faces, env);
    if Run(imagePath, faces, env).outcome.Pass? {
      SuccessTracked(imagePath, faces, env);
      SuccessLayers(imagePath, faces, env);
      SuccessRequests(imagePath, faces, env);
    }
  }

  lemma SuccessTracked(imagePath: string, faces: seq<Face>, env: Env)
    requires |env.renders| == |faces| && env.size.Ok? && env.baseWrite.Pass?
    requires var ts := Tasks(faces, env.renders, env.size.value); Completed(ts) == |ts|
    ensures var t := Run(imagePath, faces, env);
      |t.tracked| == |faces| + 1 && t.tracked[0] == BasePath(imagePath, env) &&
      forall k :: 0 <= k < |faces| ==> t.tracked[k + 1] == EmojiPath(env.renders[k])
  {
    var ts := Tasks(faces, env.renders, env.size.value);
    RunTrackedIs(imagePath, faces, env);
    assert ts[..|ts|] == ts;
    EmojiPathsOfTasks(faces, env.renders, env.size.value, |faces|);
  }

  lemma SuccessLayers(imagePath: string, faces: seq<Face>, env: Env)
    requires |env.renders| == |faces| && env.size.Ok? && env.baseWrite.Pass?
    requires var ts := Tasks(faces, env.renders, env.size.value); Completed(ts) == |ts|
    ensures var t := Run(imagePath, faces, env);
      |t.layers| == |faces| + 1 && t.layers[0] == BaseLayer(BasePath(imagePath, env)) &&
      forall k :: 0 <= k < |faces| ==>
        t.layers[k + 1] == Layer(Position(faces[k].box, env.size.value), EmojiPath(env.renders[k]))
  {
    var ts := Tasks(faces, env.renders, env.size.value);
    RunLayersAre(imagePath, faces, env);
    assert ts[..|ts|] == ts;
    LayersOfTasks(faces, env.renders, env.size.value, |faces|);
  }

  lemma SuccessRequests(imagePath: string, faces: seq<Face>, env: Env)
    requires |env.renders| == |faces| && env.size.Ok? && env.baseWrite.Pass?
    requires var ts := Tasks(faces, env.renders, env.size.value); Attempted(ts) == |ts|
    ensures var t := Run(imagePath, faces, env);
      |t.requests| == |faces| &&
      forall k :: 0 <= k < |faces| ==>
        (GetEmojiType(faces[k]).Ok? &&
         t.requests[k] == RenderRequest(GetEmojiType(faces[k]).value, EmojiSize(faces[k].box, env.size.value), EmojiPath(env.renders[k])))
  {
    RunRequestsAre(imagePath, faces, env);
    RequestsOfTasks(faces, env.renders, env.size.value);
  }

  /** Cleanup runs on every exit path that tracked something, exactly once and
      with the final tracked list; it is skipped exactly when the run failed
      before the base image reached the disk. */
  lemma RunCleanup(imagePath: string, faces: seq<Face>, env: Env)
    requires |env.renders| == |faces|
    ensures var t := Run(imagePath, faces, env);
      t.released == (if t.tracked == [] then [] else [t.tracked]) &&
      (t.tracked == [] <==> env.size.Err? || env.baseWrite.Fail?) &&
      (t.tracked == [] ==> t.outcome.Fail?)
  {
    if env.size.Ok? && env.baseWrite.Pass? {
      RunFold(imagePath, faces, env);
      RunTrackedIs(imagePath, faces, env);
    } else {
      RunEarlyFailure(imagePath, faces, env);
    }
  }

  /** The renderer is asked at most once per face, in face order, for the
      face's own emoji and size, and never before the base image is on disk. */
  lemma RunRequests(imagePath: string, faces: seq<Face>, env: Env)
    requires |env.renders| == |faces|
    ensures var t := Run(imagePath, faces, env);
      |t.requests| <= |faces| &&
      (|t.requests| > 0 ==> env.size.Ok? && env.baseWrite.Pass?) &&
      (forall k :: 0 <= k < |t.requests| ==>
        (env.size.Ok? && GetEmojiType(faces[k]).Ok? &&
         t.requests[k] == RenderRequest(GetEmojiType(faces[k]).value, EmojiSize(faces[k].box, env.size.value), EmojiPath(env.renders[k]))))
  {
    if env.size.Ok? && env.baseWrite.Pass? {
      RunRequestsAre(imagePath, faces, env);
      RequestsOfTasks(faces, env.renders, env.size.value);
    } else {
      RunEarlyFailure(imagePath, faces, env);
    }
  }

  /** Every emoji file the run creates is a `.png`, and the base image's copy
      keeps the extension of the uploaded key. */
  lemma TrackedExtensions(imagePath: string, env: Env, r: RenderStep)
    requires PlainId(env.baseId) && PlainId(r.id)
    ensures Extname(BasePath(imagePath, env)) == Extname(imagePath)
    ensures Extname(EmojiPath(r)) == ".png"
  {
    TmpPathKeepsExtname(env.baseId, imagePath);
    TmpPathKeepsExtname(r.id, "emoji.png");
    ExtnameOfEmojiPng();
  }

  lemma ExtnameOfEmojiPng()
    ensures Extname("emoji.png") == ".png"
  {
    var name := "emoji.png";
    assert name == "emoji" + ".png";
    assert StripTrailingSlashes(name) == name;
    LastSegmentWhole(name);
    LastDotOfId(name, "emoji", ".png");
    assert name[5..] == ".png";
  }
}
