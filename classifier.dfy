/** `getEmojiType` (src/faceswap.js:141-164): pick a face's most likely emotion
    and map its label onto the closed set of emoji names. */
module Classifier {

  import opened Wrappers
  import opened Strings
  import opened Detection

  /** The eight emoji the asset library holds, one per name. */
  datatype EmojiType = Happy | Sad | Angry | Confused | Disgusted | Surprised | Calm | Unknown {
    /** The lower-case name the source returns, also the asset's file stem. */
    function Name(): (r: string)
      ensures r in EmojiNames()
    {
      match this
      case Happy => "happy"
      case Sad => "sad"
      case Angry => "angry"
      case Confused => "confused"
      case Disgusted => "disgusted"
      case Surprised => "surprised"
      case Calm => "calm"
      case Unknown => "unknown"
    }
  }

  function EmojiNames(): set<string> {
    {"happy", "sad", "angry", "confused", "disgusted", "surprised", "calm", "unknown"}
  }

  /** The detector labels the `switch` turns into their own lower-case form. */
  function KnownTypes(): set<string> {
    {"HAPPY", "SAD", "ANGRY", "CONFUSED", "DISGUSTED", "SURPRISED", "CALM"}
  }

  /** The `switch` on the winning label: the seven known labels map to their
      own lower-case spelling; every other label, `UNKNOWN` and lower-case
      spellings included, maps to `unknown`. */
  /** The lower-case spelling of each known label. */
  lemma LowerKnownTypes()
    ensures LowerAscii("HAPPY") == "happy" && LowerAscii("SAD") == "sad"
    ensures LowerAscii("ANGRY") == "angry" && LowerAscii("CONFUSED") == "confused"
    ensures LowerAscii("DISGUSTED") == "disgusted" && LowerAscii("SURPRISED") == "surprised"
    ensures LowerAscii("CALM") == "calm"
  {
  }

  function FromType(t: string): (r: EmojiType)
    ensures t in KnownTypes() <==> r != Unknown
    ensures t in KnownTypes() ==> r.Name() == LowerAscii(t)
  {
    LowerKnownTypes();
    if t == "HAPPY" then Happy
    else if t == "SAD" then Sad
    else if t == "ANGRY" then Angry
    else if t == "CONFUSED" then Confused
    else if t == "DISGUSTED" then Disgusted
    else if t == "SURPRISED" then Surprised
    else if t == "CALM" then Calm
    else Unknown
  }

  /** The body of the unseeded `reduce`: `best` is the running favourite, and a
      later entry replaces it only when its confidence is strictly higher. */
  function Reduce(best: Emotion, rest: seq<Emotion>): (r: Emotion)
    ensures r == best || r in rest
    ensures best.confidence <= r.confidence
    ensures forall e :: e in rest ==> e.confidence <= r.confidence
    decreases |rest|
  {
    if rest == [] then best
    else Reduce(if best.confidence < rest[0].confidence then rest[0] else best, rest[1..])
  }

  /** `Emotions.reduce(...)` without a seed: the first entry seeds the fold. */
  function MostLikely(es: seq<Emotion>): (r: Emotion)
    requires |es| > 0
    ensures r in es
    ensures forall e :: e in es ==> e.confidence <= r.confidence
  {
    assert es == [es[0]] + es[1..];
    Reduce(es[0], es[1..])
  }

  /** Index `i` holds the highest confidence of `es`, and no earlier entry
      reaches it: it is the first of the maxima. */
  ghost predicate IsFirstMax(es: seq<Emotion>, i: int) {
    0 <= i < |es| &&
    (forall j :: 0 <= j < |es| ==> es[j].confidence <= es[i].confidence) &&
    (forall j :: 0 <= j < i ==> es[j].confidence < es[i].confidence)
  }

  /** The fold returns the first entry of highest confidence: ties keep the
      earlier entry because replacement needs a strictly higher confidence. */
  lemma MostLikelyIsFirstMax(es: seq<Emotion>)
    requires |es| > 0
    ensures exists i :: IsFirstMax(es, i) && MostLikely(es) == es[i]
  {
    assert IsFirstMax(es[..1], 0);
    var j := ReduceFromPrefix(es, 1, 0);
  }

  /** Folding the rest of `es` onto the first maximum of a prefix yields the
      first maximum of all of `es`. */
  lemma {:induction false} ReduceFromPrefix(es: seq<Emotion>, k: nat, i: nat) returns (j: nat)
    requires 0 < k <= |es| && IsFirstMax(es[..k], i)
    ensures IsFirstMax(es, j) && Reduce(es[i], es[k..]) == es[j]
    decreases |es| - k
  {
    if k == |es| {
      assert es[..k] == es;
      j := i;
    } else {
      var i' := ExtendFirstMax(es, k, i);
      assert es[k..][1..] == es[k + 1..];
      j := ReduceFromPrefix(es, k + 1, i');
    }
  }

  /** One step of the fold keeps "first maximum of the prefix read so far". */
  lemma ExtendFirstMax(es: seq<Emotion>, k: nat, i: nat) returns (i': nat)
    requires 0 < k < |es| && IsFirstMax(es[..k], i)
    ensures i' == if es[i].confidence < es[k].confidence then k else i
    ensures IsFirstMax(es[..k + 1], i')
  {
    i' := if es[i].confidence < es[k].confidence then k else i;
    var pre, seen := es[..k + 1], es[..k];
    assert seen[i] == es[i] && pre[i'] == es[i'];
    forall j | 0 <= j < k + 1 ensures pre[j].confidence <= pre[i'].confidence {
      if j < k { assert pre[j] == seen[j]; }
    }
    forall j | 0 <= j < i' ensures pre[j].confidence < pre[i'].confidence {
      if j < k { assert pre[j] == seen[j]; }
    }
  }

  /** `getEmojiType`: it fails only on a present but empty `Emotions` list,
      and a face without that list is `unknown`. */
  function GetEmojiType(face: Face): (r: Result<EmojiType>)
    ensures r.Err? <==> face.emotions == Some([])
    ensures r.Err? ==> r.error == ReduceOfEmptyArray
    ensures face.emotions.None? ==> r == Ok(Unknown)
  {
    match face.emotions
    case None => Ok(Unknown)
    case Some(es) =>
      if es == [] then Err(ReduceOfEmptyArray)
      else Ok(FromType(MostLikely(es).kind))
  }

  /** `unknown` for a face without an `Emotions` field; the unseeded `reduce`
      throws on a present but empty list; otherwise the label of the first
      most-confident emotion, mapped through the `switch`. */
  lemma GetEmojiTypeSpec(face: Face)
    ensures var r := GetEmojiType(face);
      (face.emotions.None? ==> r == Ok(Unknown)) &&
      (face.emotions.Some? && face.emotions.value == [] ==> r == Err(ReduceOfEmptyArray)) &&
      (face.emotions.Some? && face.emotions.value != [] ==>
        r.Ok? && exists i :: IsFirstMax(face.emotions.value, i) && r.value == FromType(face.emotions.value[i].kind))
  {
    if face.emotions.Some? && face.emotions.value != [] {
      MostLikelyIsFirstMax(face.emotions.value);
    }
  }

  /** The tie-breaking case: two equal best scores, the earlier label wins. */
  lemma TieKeepsEarliest(c: real, d: real)
    requires d < c
    ensures var face := Face(BoundingBox(0.0, 0.0, 0.0, 0.0),
                             Some([Emotion("HAPPY", c), Emotion("CALM", c), Emotion("SAD", d)]));
            GetEmojiType(face) == Ok(Happy)
  {
    var happy, calm, sad := Emotion("HAPPY", c), Emotion("CALM", c), Emotion("SAD", d);
    var es := [happy, calm, sad];
    assert Reduce(happy, [sad]) == happy by { assert [sad][1..] == []; }
    assert Reduce(happy, [calm, sad]) == happy by { assert [calm, sad][1..] == [sad]; }
    assert es[1..] == [calm, sad];
    assert MostLikely(es) == happy;
  }
}
