/** SignSynth2/pose_animator.py: how `PoseAnimator` turns a sequence of words
    into the poses it plays, and how it looks one pose up in the pose table
    (`gesture_data`, the parsed `sign_poses.json`). */
module PoseAnimator {
  import opened Text

  /** A parsed JSON value, as `json.load` returns it. */
  datatype Json =
    | JNull
    | JBool(b: bool)
    | JNumber(value: real)
    | JString(s: string)
    | JArray(items: seq<Json>)
    | JObject(fields: map<string, Json>)

  /** Python truthiness of a parsed JSON value: `None`, `False`, zero, the empty
      string, the empty list and the empty dict are false. */
  predicate Truthy(v: Json) {
    match v
    case JNull => false
    case JBool(b) => b
    case JNumber(x) => x != 0.0
    case JString(s) => s != []
    case JArray(items) => items != []
    case JObject(fields) => fields != map[]
  }

  /** `[c for c in word if c in gesture_data]`: the word's letters that have a
      pose of their own, in order, each as a one-letter pose name. */
  function Letters(word: string, data: map<string, Json>): seq<string> {
    if word == [] then []
    else Letters(word[..|word| - 1], data) + (if [word[|word| - 1]] in data then [[word[|word| - 1]]] else [])
  }

  /** What one word contributes: itself when it has a pose, otherwise its
      letters that have one (fingerspelling). */
  function WordPoses(word: string, data: map<string, Json>): seq<string> {
    if word in data then [word] else Letters(word, data)
  }

  /** `expandPoseSequence(sequence)`: the words' contributions, in order. */
  function Expand(sequence: seq<string>, data: map<string, Json>): seq<string> {
    if sequence == [] then []
    else Expand(sequence[..|sequence| - 1], data) + WordPoses(sequence[|sequence| - 1], data)
  }

  /** Every fingerspelled pose is a one-letter key of the pose table taken from
      the word, and every letter of the word that is a key is spelled. */
  lemma {:induction false} LettersAreKeys(word: string, data: map<string, Json>)
    ensures forall k :: 0 <= k < |Letters(word, data)| ==>
      && |Letters(word, data)[k]| == 1
      && Letters(word, data)[k] in data
      && Letters(word, data)[k][0] in word
    ensures forall i :: 0 <= i < |word| && [word[i]] in data ==> [word[i]] in Letters(word, data)
    decreases |word|
  {
    if word != [] {
      var init := word[..|word| - 1];
      LettersAreKeys(init, data);
      forall k | 0 <= k < |Letters(word, data)|
        ensures Letters(word, data)[k][0] in word
      {
        if k < |Letters(init, data)| {
          assert Letters(word, data)[k] == Letters(init, data)[k];
          assert Letters(init, data)[k][0] in init;
        }
      }
      forall i | 0 <= i < |word| && [word[i]] in data
        ensures [word[i]] in Letters(word, data)
      {
        if i < |word| - 1 {
          assert word[i] == init[i];
        }
      }
    }
  }

  /** Every pose name the expansion yields is a key of the pose table. */
  lemma {:induction false} ExpandYieldsKeys(sequence: seq<string>, data: map<string, Json>)
    ensures forall k :: 0 <= k < |Expand(sequence, data)| ==> Expand(sequence, data)[k] in data
    decreases |sequence|
  {
    if sequence != [] {
      var init, word := sequence[..|sequence| - 1], sequence[|sequence| - 1];
      ExpandYieldsKeys(init, data);
      LettersAreKeys(word, data);
      forall k | 0 <= k < |Expand(sequence, data)|
        ensures Expand(sequence, data)[k] in data
      {
        if k >= |Expand(init, data)| {
          assert Expand(sequence, data)[k] == WordPoses(word, data)[k - |Expand(init, data)|];
        }
      }
    }
  }

  /** Fingerspelling goes letter by letter, in order: the letters of two
      strings one after the other are their letters one after the other. */
  lemma {:induction false} LettersAppend(u: string, v: string, data: map<string, Json>)
    ensures Letters(u + v, data) == Letters(u, data) + Letters(v, data)
    decreases |v|
  {
    if v == [] {
      AppendNothing(u);
      AppendNothing(Letters(u, data));
    } else {
      var init := v[..|v| - 1];
      var c := v[|v| - 1];
      AppendDropLast(u, v);
      LettersAppend(u, init, data);
      AppendAssoc(Letters(u, data), Letters(init, data), if [c] in data then [[c]] else []);
    }
  }

  /** The expansion goes word by word: the expansion of two sequences one after
      the other is the two expansions one after the other. */
  lemma {:induction false} ExpandAppend(xs: seq<string>, ys: seq<string>, data: map<string, Json>)
    ensures Expand(xs + ys, data) == Expand(xs, data) + Expand(ys, data)
    decreases |ys|
  {
    if ys == [] {
      AppendNothing(xs);
      AppendNothing(Expand(xs, data));
    } else {
      var init := ys[..|ys| - 1];
      AppendDropLast(xs, ys);
      ExpandAppend(xs, init, data);
      AppendAssoc(Expand(xs, data), Expand(init, data), WordPoses(ys[|ys| - 1], data));
    }
  }

  /** A word with a pose of its own contributes exactly itself; any other word
      is fingerspelled; nothing yields nothing. */
  lemma OneWord(word: string, data: map<string, Json>)
    ensures word in data ==> Expand([word], data) == [word]
    ensures word !in data ==> Expand([word], data) == Letters(word, data)
    ensures Expand([], data) == []
  {
    assert [word][..0] == [];
  }

  class PoseAnimator {
    /** `self.gesture_data`, loaded once from the pose file */
    const gestureData: map<string, Json>
    var currentPose: string
    var poseIndex: int
    var poseSequence: seq<string>
    var expandedSequence: seq<string>

    /** `__init__`, with the parsed pose file as a parameter. */
    constructor (gestureData: map<string, Json>)
      ensures this.gestureData == gestureData
      ensures currentPose == "default" && poseIndex == 0 && poseSequence == ["j"]
      ensures expandedSequence == Expand(["j"], gestureData)
      ensures expandedSequence == if "j" in gestureData then ["j"] else []
    {
      this.gestureData := gestureData;
      currentPose := "default";
      poseIndex := 0;
      poseSequence := ["j"];
      new;
      expandedSequence := ExpandPoseSequence(poseSequence);
      OneWord("j", gestureData);
      assert Letters("j", gestureData) == Letters([], gestureData) + (if "j" in gestureData then ["j"] else []);
    }

    /** `expandPoseSequence` */
    method ExpandPoseSequence(sequence: seq<string>) returns (result: seq<string>)
      ensures result == Expand(sequence, gestureData)
    {
      result := [];
      for i := 0 to |sequence|
        invariant result == Expand(sequence[..i], gestureData)
      {
        var word := sequence[i];
        assert sequence[..i + 1][..i] == sequence[..i];
        if word in gestureData {
          result := result + [word];
        } else {
          result := result + Letters(word, gestureData);
        }
      }
      assert sequence[..|sequence|] == sequence;
    }

    /** `loadPoseNow`: `None` (here `JNull`) for a missing or falsy entry, the
        first pose of a list, or the entry itself. */
    function LoadPoseNow(poseName: string): (pose: Json)
      ensures poseName !in gestureData || !Truthy(gestureData[poseName]) ==> pose == JNull
      ensures poseName in gestureData && Truthy(gestureData[poseName]) ==>
        pose == match gestureData[poseName] case JArray(items) => items[0] case _ => gestureData[poseName]
      ensures poseName in gestureData && gestureData[poseName] == JArray([]) ==> pose == JNull
      ensures poseName in gestureData && gestureData[poseName].JArray? && gestureData[poseName].items != [] ==>
        pose == gestureData[poseName].items[0]
    {
      if poseName !in gestureData then JNull
      else
        var poses := gestureData[poseName];
        if !Truthy(poses) then JNull
        else if poses.JArray? then poses.items[0]
        else poses
    }
  }
}
