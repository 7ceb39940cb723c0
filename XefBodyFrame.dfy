/**
 * XEFBodyFrame and its parts: the fixed layout of a body stream's event
 * payload. A frame is the floor clip plane and the up vector, six body
 * records and a quality word, 6288 bytes; a body record is 1040 bytes.
 * Every field is a 32-bit word (the tracking id two of them), so the layout
 * is stated on words: a record's decoder reads its fields out of the words
 * at its place, and an encoder writing any record back is the decoder's
 * inverse. The readers below advance a BinaryReader through the same layout.
 */
module XefBodyFrameModel {
  import opened Wrappers
  import opened Bytes
  import opened Words
  import opened BinaryReading
  import XefDecoding

  // ----- the records -----

  /** XEFVector: x, y, z, w, floats kept as their bit patterns. */
  datatype Vector = Vector(x: Word, y: Word, z: Word, w: Word)

  /** XEFJointType, an int enum: SpineBase = 0 up to ThumbRight = 24. */
  type JointType = j: int | 0 <= j < 25

  const SpineBase: JointType := 0
  const SpineMid: JointType := 1
  const Neck: JointType := 2
  const Head: JointType := 3
  const ShoulderLeft: JointType := 4
  const ElbowLeft: JointType := 5
  const WristLeft: JointType := 6
  const HandLeft: JointType := 7
  const ShoulderRight: JointType := 8
  const ElbowRight: JointType := 9
  const WristRight: JointType := 10
  const HandRight: JointType := 11
  const HipLeft: JointType := 12
  const KneeLeft: JointType := 13
  const AnkleLeft: JointType := 14
  const FootLeft: JointType := 15
  const HipRight: JointType := 16
  const KneeRight: JointType := 17
  const AnkleRight: JointType := 18
  const FootRight: JointType := 19
  const SpineShoulder: JointType := 20
  const HandTipLeft: JointType := 21
  const ThumbLeft: JointType := 22
  const HandTipRight: JointType := 23
  const ThumbRight: JointType := 24

  /**
   * XEFExpressionData. The enum fields keep whatever int the payload holds,
   * as C#'s enum casts do.
   */
  datatype ExpressionData = ExpressionData(
    faceNeutral: int, faceHappy: int,
    activityTalking: int, activityEyeLeftClosed: int, activityEyeRightClosed: int,
    activityMouthOpen: int, activityMouthMoved: int, activityLookingAway: int,
    engagementEngaged: int,
    appearanceWearingGlasses: int,
    trackingState: int)

  datatype HandData = HandData(handState: int, handTrackingState: int, handConfidence: int)

  datatype LeanData = LeanData(x: Word, y: Word, reserved: Word, leanTrackingState: int)

  datatype BodyData = BodyData(
    jointPositions: map<JointType, Vector>,
    jointOrientations: map<JointType, Vector>,
    jointTrackingStates: map<JointType, int>,
    expression: ExpressionData,
    handLeft: HandData,
    handRight: HandData,
    trackingId: nat,
    trackingState: int,
    lean: LeanData,
    qualityFlags: Word)

  datatype BodyFrame = BodyFrame(floorClipPlane: Vector, up: Vector, bodies: seq<BodyData>, qualityFlags: Word)

  const BodyCount: nat := 6           // BODY_DATA_SIZE
  const BodyWordCount: nat := 260     // 1040 bytes
  const FrameWordCount: nat := 1572   // 6288 bytes
  const FrameSize: nat := 6288

  // ----- decoding: each record read out of the payload's words at a word offset -----

  function VectorOfWords(w: seq<Word>, i: nat): Vector
    requires i + 4 <= |w|
  {
    Vector(w[i], w[i + 1], w[i + 2], w[i + 3])
  }

  /** Eight named levels, four unknown words, Engaged, WearingGlasses, five unknown words, TrackingState. */
  function ExpressionOfWords(w: seq<Word>, i: nat): ExpressionData
    requires i + 20 <= |w|
  {
    ExpressionData(
      Int32Of(w[i]), Int32Of(w[i + 1]),
      Int32Of(w[i + 2]), Int32Of(w[i + 3]), Int32Of(w[i + 4]), Int32Of(w[i + 5]), Int32Of(w[i + 6]), Int32Of(w[i + 7]),
      Int32Of(w[i + 12]),
      Int32Of(w[i + 13]),
      Int32Of(w[i + 19]))
  }

  /** State, tracking state, confidence. */
  function HandOfWords(w: seq<Word>, i: nat): HandData
    requires i + 3 <= |w|
  {
    HandData(Int32Of(w[i]), Int32Of(w[i + 1]), Int32Of(w[i + 2]))
  }

  function LeanOfWords(w: seq<Word>, i: nat): LeanData
    requires i + 4 <= |w|
  {
    LeanData(w[i], w[i + 1], w[i + 2], Int32Of(w[i + 3]))
  }

  /**
   * The dictionary of the first n joint types' vectors, filled in enum order
   * as the foreach over Enum.GetValues does; n = 25 gives the whole record.
   */
  function JointVectorsOfWords(w: seq<Word>, i: nat, n: nat): map<JointType, Vector>
    requires i + 100 <= |w| && n <= 25
  {
    if n == 0 then map[] else JointVectorsOfWords(w, i, n - 1)[n - 1 := VectorOfWords(w, i + 4 * (n - 1))]
  }

  /** The dictionary of the first n joint types' tracking states, filled in enum order. */
  function JointStatesOfWords(w: seq<Word>, i: nat, n: nat): map<JointType, int>
    requires i + 25 <= |w| && n <= 25
  {
    if n == 0 then map[] else JointStatesOfWords(w, i, n - 1)[n - 1 := Int32Of(w[i + n - 1])]
  }

  /**
   * A body record: positions, orientations and tracking states of the 25
   * joints, the expression record, the two hands, a padding word, the
   * tracking id, the tracking state, the lean record and the quality word.
   */
  function BodyOfWords(w: seq<Word>, i: nat): BodyData
    requires i + BodyWordCount <= |w|
  {
    BodyData(
      JointVectorsOfWords(w, i, 25),
      JointVectorsOfWords(w, i + 100, 25),
      JointStatesOfWords(w, i + 200, 25),
      ExpressionOfWords(w, i + 225),
      HandOfWords(w, i + 245),
      HandOfWords(w, i + 248),
      U64Of(w[i + 252], w[i + 253]),
      Int32Of(w[i + 254]),
      LeanOfWords(w, i + 255),
      w[i + 259])
  }

  /** Floor clip plane, up, six bodies, the quality word; three padding words follow. */
  function FrameOfWords(w: seq<Word>): BodyFrame
    requires |w| == FrameWordCount
  {
    BodyFrame(VectorOfWords(w, 0), VectorOfWords(w, 4), BodiesOfWords(w, BodyCount), w[1568])
  }

  /** The first n body records of a frame, 260 words apart from word 8 on. */
  function BodiesOfWords(w: seq<Word>, n: nat): (r: seq<BodyData>)
    requires |w| == FrameWordCount && n <= BodyCount
    ensures |r| == n
  {
    if n == 0 then [] else BodiesOfWords(w, n - 1) + [BodyOfWords(w, 8 + 260 * (n - 1))]
  }

  /** XEFBodyFrame.FromByteArray on a payload holding a whole frame. */
  function BodyFrameAt(s: seq<Byte>): BodyFrame
    requires |s| >= FrameSize
  {
    FrameOfWords(WordsAt(s, 0, FrameWordCount))
  }

  // ----- what a decoded record is -----

  predicate ValidExpression(e: ExpressionData)
  {
    Int32Min <= e.faceNeutral <= Int32Max && Int32Min <= e.faceHappy <= Int32Max
    && Int32Min <= e.activityTalking <= Int32Max && Int32Min <= e.activityEyeLeftClosed <= Int32Max
    && Int32Min <= e.activityEyeRightClosed <= Int32Max && Int32Min <= e.activityMouthOpen <= Int32Max
    && Int32Min <= e.activityMouthMoved <= Int32Max && Int32Min <= e.activityLookingAway <= Int32Max
    && Int32Min <= e.engagementEngaged <= Int32Max && Int32Min <= e.appearanceWearingGlasses <= Int32Max
    && Int32Min <= e.trackingState <= Int32Max
  }

  predicate ValidHand(h: HandData)
  {
    Int32Min <= h.handState <= Int32Max && Int32Min <= h.handTrackingState <= Int32Max
    && Int32Min <= h.handConfidence <= Int32Max
  }

  /** Every joint type has its entry. */
  predicate AllJoints<T>(m: map<JointType, T>)
  {
    forall j: JointType :: j in m
  }

  /** A body as FromReader can produce it: full joint maps and int-sized fields. */
  predicate ValidBody(b: BodyData)
  {
    AllJoints(b.jointPositions) && AllJoints(b.jointOrientations) && AllJoints(b.jointTrackingStates)
    && (forall j: JointType :: Int32Min <= b.jointTrackingStates[j] <= Int32Max)
    && ValidExpression(b.expression) && ValidHand(b.handLeft) && ValidHand(b.handRight)
    && b.trackingId < 0x1_0000_0000_0000_0000 && Int32Min <= b.trackingState <= Int32Max
    && Int32Min <= b.lean.leanTrackingState <= Int32Max
  }

  predicate ValidFrame(f: BodyFrame)
  {
    |f.bodies| == BodyCount && forall k :: 0 <= k < |f.bodies| ==> ValidBody(f.bodies[k])
  }

  // ----- encoding, the decoder's inverse -----

  function VectorWords(v: Vector): (r: seq<Word>)
    ensures |r| == 4
  {
    [v.x, v.y, v.z, v.w]
  }

  /** The unknown words are written as 0. */
  function ExpressionWords(e: ExpressionData): (r: seq<Word>)
    requires ValidExpression(e)
    ensures |r| == 20
  {
    [WordOf(e.faceNeutral), WordOf(e.faceHappy),
     WordOf(e.activityTalking), WordOf(e.activityEyeLeftClosed), WordOf(e.activityEyeRightClosed),
     WordOf(e.activityMouthOpen), WordOf(e.activityMouthMoved), WordOf(e.activityLookingAway),
     0, 0, 0, 0,
     WordOf(e.engagementEngaged),
     WordOf(e.appearanceWearingGlasses),
     0, 0, 0, 0, 0,
     WordOf(e.trackingState)]
  }

  function HandWords(h: HandData): (r: seq<Word>)
    requires ValidHand(h)
    ensures |r| == 3
  {
    [WordOf(h.handState), WordOf(h.handTrackingState), WordOf(h.handConfidence)]
  }

  function LeanWords(l: LeanData): (r: seq<Word>)
    requires Int32Min <= l.leanTrackingState <= Int32Max
    ensures |r| == 4
  {
    [l.x, l.y, l.reserved, WordOf(l.leanTrackingState)]
  }

  /** The vectors of joints j up to ThumbRight, in enum order. */
  function JointVectorWords(m: map<JointType, Vector>, j: nat): (r: seq<Word>)
    requires AllJoints(m) && j <= 25
    ensures |r| == 4 * (25 - j)
    decreases 25 - j
  {
    if j == 25 then [] else VectorWords(m[j]) + JointVectorWords(m, j + 1)
  }

  /** The tracking states of joints j up to ThumbRight, in enum order. */
  function JointStateWords(m: map<JointType, int>, j: nat): (r: seq<Word>)
    requires AllJoints(m) && j <= 25 && forall t: JointType :: Int32Min <= m[t] <= Int32Max
    ensures |r| == 25 - j
    decreases 25 - j
  {
    if j == 25 then [] else [WordOf(m[j])] + JointStateWords(m, j + 1)
  }

  /** A body record's words; the padding word is written as 0. */
  function BodyWords(b: BodyData): (r: seq<Word>)
    requires ValidBody(b)
    ensures |r| == BodyWordCount
  {
    JointVectorWords(b.jointPositions, 0)
    + (JointVectorWords(b.jointOrientations, 0)
    + (JointStateWords(b.jointTrackingStates, 0)
    + BodyTailWords(b)))
  }

  /** The words after the joints: expression, hands, padding, id, state, lean, quality. */
  function BodyTailWords(b: BodyData): (r: seq<Word>)
    requires ValidBody(b)
    ensures |r| == 35
  {
    ExpressionWords(b.expression)
    + (HandWords(b.handLeft)
    + (HandWords(b.handRight)
    + (IdWords(b)
    + (LeanWords(b.lean)
    + [b.qualityFlags]))))
  }

  /** The padding word, the tracking id's two words and the tracking state. */
  function IdWords(b: BodyData): (r: seq<Word>)
    requires ValidBody(b)
    ensures |r| == 4
  {
    [0] + U64Words(b.trackingId) + [WordOf(b.trackingState)]
  }

  /** The body records' words, one run per body. */
  function BodyRuns(bs: seq<BodyData>): (r: seq<seq<Word>>)
    requires forall k :: 0 <= k < |bs| ==> ValidBody(bs[k])
    ensures |r| == |bs| && forall k :: 0 <= k < |bs| ==> |r[k]| == BodyWordCount
  {
    seq(|bs|, k requires 0 <= k < |bs| => BodyWords(bs[k]))
  }

  function FrameWords(f: BodyFrame): (r: seq<Word>)
    requires ValidFrame(f)
    ensures |r| == FrameWordCount
  {
    FlattenLength(BodyRuns(f.bodies), BodyWordCount);
    VectorWords(f.floorClipPlane) + (VectorWords(f.up) + (Flatten(BodyRuns(f.bodies)) + [f.qualityFlags, 0, 0, 0]))
  }

  /** A frame as the 6288 bytes of an event payload. */
  function FrameBytes(f: BodyFrame): (r: seq<Byte>)
    requires ValidFrame(f)
    ensures |r| == FrameSize
  {
    WordBytes(FrameWords(f))
  }

  // ----- properties -----

  /** Whatever the words, a decoded body has an entry for every joint and int-sized fields. */
  lemma DecodedBodyValid(w: seq<Word>, i: nat)
    requires i + BodyWordCount <= |w|
    ensures ValidBody(BodyOfWords(w, i))
  {
    JointVectorsEntries(w, i, 25);
    JointVectorsEntries(w, i + 100, 25);
    JointStatesEntries(w, i + 200, 25);
  }

  /** The first n joint types have their entries, each read 16 bytes after the one before. */
  lemma {:induction false} JointVectorsEntries(w: seq<Word>, i: nat, n: nat)
    requires i + 100 <= |w| && n <= 25
    ensures forall t: JointType :: t in JointVectorsOfWords(w, i, n) <==> t < n
    ensures forall t: JointType | t < n :: JointVectorsOfWords(w, i, n)[t] == VectorOfWords(w, i + 4 * t)
  {
    if n > 0 {
      JointVectorsEntries(w, i, n - 1);
    }
  }

  /** The first n joint types have their entries, each read 4 bytes after the one before. */
  lemma {:induction false} JointStatesEntries(w: seq<Word>, i: nat, n: nat)
    requires i + 25 <= |w| && n <= 25
    ensures forall t: JointType :: t in JointStatesOfWords(w, i, n) <==> t < n
    ensures forall t: JointType | t < n :: JointStatesOfWords(w, i, n)[t] == Int32Of(w[i + t])
  {
    if n > 0 {
      JointStatesEntries(w, i, n - 1);
    }
  }

  /** Whatever the bytes, a decoded frame has six bodies, each with an entry for every joint and int-sized fields. */
  lemma DecodedFrameValid(s: seq<Byte>)
    requires |s| >= FrameSize
    ensures ValidFrame(BodyFrameAt(s)) && |BodyFrameAt(s).bodies| == 6
  {
    var w := WordsAt(s, 0, FrameWordCount);
    forall k | 0 <= k < BodyCount
      ensures ValidBody(BodyFrameAt(s).bodies[k])
    {
      BodyEntry(w, BodyCount, k);
      DecodedBodyValid(w, 8 + 260 * k);
    }
  }

  /** Body k of a frame is the record at word 8 + 260 * k. */
  lemma {:induction false} BodyEntry(w: seq<Word>, n: nat, k: nat)
    requires |w| == FrameWordCount && k < n <= BodyCount
    ensures BodiesOfWords(w, n)[k] == BodyOfWords(w, 8 + 260 * k)
    decreases n
  {
    if k < n - 1 {
      BodyEntry(w, n - 1, k);
    } else {
      assert 8 + 260 * (n - 1) == 8 + 260 * k;
    }
  }

  lemma VectorBack(w: seq<Word>, i: nat, v: Vector)
    requires Placed(w, i, VectorWords(v))
    ensures VectorOfWords(w, i) == v
  {
    var u := VectorWords(v);
    assert w[i] == u[0] && w[i + 1] == u[1] && w[i + 2] == u[2] && w[i + 3] == u[3];
  }

  lemma ExpressionBack(w: seq<Word>, i: nat, e: ExpressionData)
    requires ValidExpression(e) && Placed(w, i, ExpressionWords(e))
    ensures ExpressionOfWords(w, i) == e
  {
    var u := ExpressionWords(e);
    assert w[i] == u[0] && w[i + 1] == u[1] && w[i + 2] == u[2] && w[i + 3] == u[3];
    assert w[i + 4] == u[4] && w[i + 5] == u[5] && w[i + 6] == u[6] && w[i + 7] == u[7];
    assert w[i + 12] == u[12] && w[i + 13] == u[13] && w[i + 19] == u[19];
  }

  lemma HandBack(w: seq<Word>, i: nat, h: HandData)
    requires ValidHand(h) && Placed(w, i, HandWords(h))
    ensures HandOfWords(w, i) == h
  {
    var u := HandWords(h);
    assert w[i] == u[0] && w[i + 1] == u[1] && w[i + 2] == u[2];
  }

  lemma LeanBack(w: seq<Word>, i: nat, l: LeanData)
    requires Int32Min <= l.leanTrackingState <= Int32Max && Placed(w, i, LeanWords(l))
    ensures LeanOfWords(w, i) == l
  {
    var u := LeanWords(l);
    assert w[i] == u[0] && w[i + 1] == u[1] && w[i + 2] == u[2] && w[i + 3] == u[3];
  }

  lemma {:induction false} JointVectorsBack(w: seq<Word>, i: nat, m: map<JointType, Vector>, j: nat)
    requires AllJoints(m) && j <= 25 && Placed(w, i + 4 * j, JointVectorWords(m, j))
    ensures forall t: JointType | j <= t :: VectorOfWords(w, i + 4 * t) == m[t]
    decreases 25 - j
  {
    if j < 25 {
      PlacedSplit(w, i + 4 * j, VectorWords(m[j]), JointVectorWords(m, j + 1));
      VectorBack(w, i + 4 * j, m[j]);
      JointVectorsBack(w, i, m, j + 1);
    }
  }

  lemma {:induction false} JointStatesBack(w: seq<Word>, i: nat, m: map<JointType, int>, j: nat)
    requires AllJoints(m) && j <= 25 && forall t: JointType :: Int32Min <= m[t] <= Int32Max
    requires Placed(w, i + j, JointStateWords(m, j))
    ensures forall t: JointType | j <= t :: Int32Of(w[i + t]) == m[t]
    decreases 25 - j
  {
    if j < 25 {
      PlacedSplit(w, i + j, [WordOf(m[j])], JointStateWords(m, j + 1));
      assert w[i + j] == [WordOf(m[j])][0];
      JointStatesBack(w, i, m, j + 1);
    }
  }

  lemma JointVectorsMapBack(w: seq<Word>, i: nat, m: map<JointType, Vector>)
    requires AllJoints(m) && Placed(w, i, JointVectorWords(m, 0))
    ensures JointVectorsOfWords(w, i, 25) == m
  {
    JointVectorsBack(w, i, m, 0);
    JointVectorsMapOf(w, i, m);
  }

  lemma JointVectorsMapOf(w: seq<Word>, i: nat, m: map<JointType, Vector>)
    requires i + 100 <= |w| && AllJoints(m) && forall t: JointType :: VectorOfWords(w, i + 4 * t) == m[t]
    ensures JointVectorsOfWords(w, i, 25) == m
  {
    JointVectorsEntries(w, i, 25);
    var d := JointVectorsOfWords(w, i, 25);
    assert forall t: JointType :: t in d && t in m && d[t] == m[t];
  }

  lemma JointStatesMapBack(w: seq<Word>, i: nat, m: map<JointType, int>)
    requires AllJoints(m) && forall t: JointType :: Int32Min <= m[t] <= Int32Max
    requires Placed(w, i, JointStateWords(m, 0))
    ensures JointStatesOfWords(w, i, 25) == m
  {
    JointStatesBack(w, i, m, 0);
    JointStatesMapOf(w, i, m);
  }

  lemma JointStatesMapOf(w: seq<Word>, i: nat, m: map<JointType, int>)
    requires i + 25 <= |w| && AllJoints(m) && forall t: JointType :: Int32Of(w[i + t]) == m[t]
    ensures JointStatesOfWords(w, i, 25) == m
  {
    JointStatesEntries(w, i, 25);
    var d := JointStatesOfWords(w, i, 25);
    assert forall t: JointType :: t in d && t in m && d[t] == m[t];
  }

  /** Where the parts after the joints sit, from the expression record on. */
  lemma BodyTailPlaced(w: seq<Word>, i: nat, b: BodyData)
    requires ValidBody(b) && Placed(w, i, BodyTailWords(b))
    ensures Placed(w, i, ExpressionWords(b.expression))
    ensures Placed(w, i + 20, HandWords(b.handLeft)) && Placed(w, i + 23, HandWords(b.handRight))
    ensures Placed(w, i + 26, IdWords(b))
    ensures Placed(w, i + 30, LeanWords(b.lean)) && Placed(w, i + 34, [b.qualityFlags])
  {
    var t8 := LeanWords(b.lean) + [b.qualityFlags];
    var t7 := IdWords(b) + t8;
    var t6 := HandWords(b.handRight) + t7;
    var t5 := HandWords(b.handLeft) + t6;
    PlacedSplit(w, i, ExpressionWords(b.expression), t5);
    PlacedSplit(w, i + 20, HandWords(b.handLeft), t6);
    PlacedSplit(w, i + 23, HandWords(b.handRight), t7);
    PlacedSplit(w, i + 26, IdWords(b), t8);
    PlacedSplit(w, i + 30, LeanWords(b.lean), [b.qualityFlags]);
  }

  /** A body record's words, wherever they sit, decode back to the body. */
  lemma BodyBack(w: seq<Word>, i: nat, b: BodyData)
    requires ValidBody(b) && Placed(w, i, BodyWords(b))
    ensures BodyOfWords(w, i) == b
  {
    PlacedSplit4(w, i, JointVectorWords(b.jointPositions, 0), JointVectorWords(b.jointOrientations, 0),
                 JointStateWords(b.jointTrackingStates, 0), BodyTailWords(b));
    BodyTailPlaced(w, i + 225, b);
    JointVectorsMapBack(w, i, b.jointPositions);
    JointVectorsMapBack(w, i + 100, b.jointOrientations);
    JointStatesMapBack(w, i + 200, b.jointTrackingStates);
    ExpressionBack(w, i + 225, b.expression);
    HandBack(w, i + 245, b.handLeft);
    HandBack(w, i + 248, b.handRight);
    LeanBack(w, i + 255, b.lean);
    IdBack(w, i + 251, b);
    assert w[i + 259] == [b.qualityFlags][0];
  }

  /** The padding word, the tracking id and the tracking state. */
  lemma IdBack(w: seq<Word>, i: nat, b: BodyData)
    requires ValidBody(b) && Placed(w, i, IdWords(b))
    ensures U64Of(w[i + 1], w[i + 2]) == b.trackingId && Int32Of(w[i + 3]) == b.trackingState
  {
    var id := IdWords(b);
    assert w[i + 1] == id[1] == U64Words(b.trackingId)[0];
    assert w[i + 2] == id[2] == U64Words(b.trackingId)[1];
    assert w[i + 3] == id[3];
  }

  /** The body records of an encoded frame sit from word 8 on. */
  lemma FrameRunsPlaced(f: BodyFrame)
    requires ValidFrame(f)
    ensures Placed(FrameWords(f), 8, Flatten(BodyRuns(f.bodies)))
  {
    var w := FrameWords(f);
    assert Placed(w, 0, w);
    PlacedSplit4(w, 0, VectorWords(f.floorClipPlane), VectorWords(f.up), Flatten(BodyRuns(f.bodies)),
                 [f.qualityFlags, 0, 0, 0]);
  }

  /** Body k of body records laid one after another from word i on sits at i + 260 * k. */
  lemma RunBodyPlaced(w: seq<Word>, i: nat, bs: seq<BodyData>, k: nat)
    requires forall j :: 0 <= j < |bs| ==> ValidBody(bs[j])
    requires Placed(w, i, Flatten(BodyRuns(bs))) && k < |bs|
    ensures Placed(w, i + 260 * k, BodyWords(bs[k]))
  {
    var runs := BodyRuns(bs);
    RunPlaced(w, i, runs, 260, k);
    assert runs[k] == BodyWords(bs[k]);
  }

  /** Each body record sits at its place among words from word 8 on. */
  ghost predicate BodiesPlaced(w: seq<Word>, bs: seq<BodyData>)
    requires forall k :: 0 <= k < |bs| ==> ValidBody(bs[k])
  {
    forall k :: 0 <= k < |bs| ==> Placed(w, 8 + 260 * k, BodyWords(bs[k]))
  }

  lemma FrameBodiesPlaced(f: BodyFrame)
    requires ValidFrame(f)
    ensures BodiesPlaced(FrameWords(f), f.bodies)
  {
    forall k | 0 <= k < |f.bodies|
      ensures Placed(FrameWords(f), 8 + 260 * k, BodyWords(f.bodies[k]))
    {
      FrameBodyPlaced(f, k);
    }
  }

  lemma FrameBodyPlaced(f: BodyFrame, k: nat)
    requires ValidFrame(f) && k < |f.bodies|
    ensures Placed(FrameWords(f), 8 + 260 * k, BodyWords(f.bodies[k]))
  {
    FrameRunsPlaced(f);
    RunBodyPlaced(FrameWords(f), 8, f.bodies, k);
  }

  /** Body k of placed body records decodes back to body k. */
  lemma BodyAtBack(w: seq<Word>, bs: seq<BodyData>, k: nat)
    requires forall j :: 0 <= j < |bs| ==> ValidBody(bs[j])
    requires |w| == FrameWordCount && |bs| == BodyCount && BodiesPlaced(w, bs) && k < |bs|
    ensures BodyOfWords(w, 8 + 260 * k) == bs[k]
  {
    BodyPlacedAt(w, bs, k);
    BodyBack(w, 8 + 260 * k, bs[k]);
  }

  lemma BodyPlacedAt(w: seq<Word>, bs: seq<BodyData>, k: nat)
    requires forall j :: 0 <= j < |bs| ==> ValidBody(bs[j])
    requires BodiesPlaced(w, bs) && k < |bs|
    ensures Placed(w, 8 + 260 * k, BodyWords(bs[k]))
  {
  }

  /** Decoding the 6288 bytes of any frame gives the frame back: the layout loses nothing. */
  lemma FrameRoundTrip(f: BodyFrame)
    requires ValidFrame(f)
    ensures BodyFrameAt(FrameBytes(f)) == f
  {
    var w := FrameWords(f);
    WordsOfWordBytes(w);
    FrameScalarsBack(f);
    FrameBodiesPlaced(f);
    forall k | 0 <= k < BodyCount
      ensures BodiesOfWords(w, BodyCount)[k] == f.bodies[k]
    {
      BodyEntry(w, BodyCount, k);
      BodyAtBack(w, f.bodies, k);
    }
  }

  /** The vectors and the quality word of an encoded frame decode back. */
  lemma FrameScalarsBack(f: BodyFrame)
    requires ValidFrame(f)
    ensures var w := FrameWords(f);
      VectorOfWords(w, 0) == f.floorClipPlane && VectorOfWords(w, 4) == f.up && w[1568] == f.qualityFlags
  {
    var w := FrameWords(f);
    assert Placed(w, 0, w);
    PlacedSplit4(w, 0, VectorWords(f.floorClipPlane), VectorWords(f.up), Flatten(BodyRuns(f.bodies)),
                 [f.qualityFlags, 0, 0, 0]);
    VectorBack(w, 0, f.floorClipPlane);
    VectorBack(w, 4, f.up);
    assert w[1568] == [f.qualityFlags, 0, 0, 0][0];
  }

  // ----- the readers: FromReader and FromByteArray over a BinaryReader -----

  /** XEFVector.FromReader. */
  method ReadVector(reader: BinaryReader, ghost w: seq<Word>, ghost i: nat) returns (v: Vector)
    requires reader.Valid() && WordsOf(reader.data, w) && reader.position == 4 * i && i + 4 <= |w|
    modifies reader
    ensures reader.Valid() && reader.position == old(reader.position) + 16
    ensures v == VectorOfWords(w, i)
  {
    var x := ReadSingleAt(reader, w, i);
    var y := ReadSingleAt(reader, w, i + 1);
    var z := ReadSingleAt(reader, w, i + 2);
    var ww := ReadSingleAt(reader, w, i + 3);
    v := Vector(x, y, z, ww);
  }

  /** XEFExpressionData.FromReader. */
  method ReadExpression(reader: BinaryReader, ghost w: seq<Word>, ghost i: nat) returns (e: ExpressionData)
    requires reader.Valid() && WordsOf(reader.data, w) && reader.position == 4 * i && i + 20 <= |w|
    modifies reader
    ensures reader.Valid() && reader.position == old(reader.position) + 80
    ensures e == ExpressionOfWords(w, i)
  {
    var faceNeutral, faceHappy, talking, eyeLeftClosed, eyeRightClosed, mouthOpen, mouthMoved, lookingAway
      := ReadFaceAndActivity(reader, w, i);
    var engaged, wearingGlasses, trackingState := ReadEngagementAndAppearance(reader, w, i + 8);
    e := ExpressionData(faceNeutral, faceHappy, talking, eyeLeftClosed, eyeRightClosed,
                        mouthOpen, mouthMoved, lookingAway, engaged, wearingGlasses, trackingState);
  }

  /** The first eight levels of an expression record: two face levels, six activity levels. */
  method ReadFaceAndActivity(reader: BinaryReader, ghost w: seq<Word>, ghost i: nat)
    returns (faceNeutral: int, faceHappy: int, talking: int, eyeLeftClosed: int, eyeRightClosed: int,
             mouthOpen: int, mouthMoved: int, lookingAway: int)
    requires reader.Valid() && WordsOf(reader.data, w) && reader.position == 4 * i && i + 8 <= |w|
    modifies reader
    ensures reader.Valid() && reader.position == old(reader.position) + 32
    ensures faceNeutral == Int32Of(w[i]) && faceHappy == Int32Of(w[i + 1])
    ensures talking == Int32Of(w[i + 2]) && eyeLeftClosed == Int32Of(w[i + 3])
    ensures eyeRightClosed == Int32Of(w[i + 4]) && mouthOpen == Int32Of(w[i + 5])
    ensures mouthMoved == Int32Of(w[i + 6]) && lookingAway == Int32Of(w[i + 7])
  {
    faceNeutral := ReadInt32At(reader, w, i);
    faceHappy := ReadInt32At(reader, w, i + 1);
    talking := ReadInt32At(reader, w, i + 2);
    eyeLeftClosed := ReadInt32At(reader, w, i + 3);
    eyeRightClosed := ReadInt32At(reader, w, i + 4);
    mouthOpen := ReadInt32At(reader, w, i + 5);
    mouthMoved := ReadInt32At(reader, w, i + 6);
    lookingAway := ReadInt32At(reader, w, i + 7);
  }

  /**
   * The rest of an expression record, from its ninth word: four unknown words,
   * Engaged, WearingGlasses, five unknown words, the tracking state.
   */
  method ReadEngagementAndAppearance(reader: BinaryReader, ghost w: seq<Word>, ghost i: nat)
    returns (engaged: int, wearingGlasses: int, trackingState: int)
    requires reader.Valid() && WordsOf(reader.data, w) && reader.position == 4 * i && i + 12 <= |w|
    modifies reader
    ensures reader.Valid() && reader.position == old(reader.position) + 48
    ensures engaged == Int32Of(w[i + 4]) && wearingGlasses == Int32Of(w[i + 5])
    ensures trackingState == Int32Of(w[i + 11])
  {
    var unknown := ReadInt32At(reader, w, i);
    unknown := ReadInt32At(reader, w, i + 1);
    unknown := ReadInt32At(reader, w, i + 2);
    unknown := ReadInt32At(reader, w, i + 3);
    engaged := ReadInt32At(reader, w, i + 4);
    wearingGlasses := ReadInt32At(reader, w, i + 5);
    unknown := ReadInt32At(reader, w, i + 6);
    unknown := ReadInt32At(reader, w, i + 7);
    unknown := ReadInt32At(reader, w, i + 8);
    unknown := ReadInt32At(reader, w, i + 9);
    unknown := ReadInt32At(reader, w, i + 10);
    trackingState := ReadInt32At(reader, w, i + 11);
  }

  /** XEFHandData.FromReader. */
  method ReadHand(reader: BinaryReader, ghost w: seq<Word>, ghost i: nat) returns (h: HandData)
    requires reader.Valid() && WordsOf(reader.data, w) && reader.position == 4 * i && i + 3 <= |w|
    modifies reader
    ensures reader.Valid() && reader.position == old(reader.position) + 12
    ensures h == HandOfWords(w, i)
  {
    var state := ReadInt32At(reader, w, i);
    var trackingState := ReadInt32At(reader, w, i + 1);
    var confidence := ReadInt32At(reader, w, i + 2);
    h := HandData(state, trackingState, confidence);
  }

  /** XEFLeanData.FromReader. */
  method ReadLean(reader: BinaryReader, ghost w: seq<Word>, ghost i: nat) returns (l: LeanData)
    requires reader.Valid() && WordsOf(reader.data, w) && reader.position == 4 * i && i + 4 <= |w|
    modifies reader
    ensures reader.Valid() && reader.position == old(reader.position) + 16
    ensures l == LeanOfWords(w, i)
  {
    var x := ReadSingleAt(reader, w, i);
    var y := ReadSingleAt(reader, w, i + 1);
    var reserved := ReadUInt32At(reader, w, i + 2);
    var trackingState := ReadInt32At(reader, w, i + 3);
    l := LeanData(x, y, reserved, trackingState);
  }

  /** The foreach over the joint types filling a position or orientation dictionary. */
  method ReadJointVectors(reader: BinaryReader, ghost w: seq<Word>, ghost i: nat) returns (m: map<JointType, Vector>)
    requires reader.Valid() && WordsOf(reader.data, w) && reader.position == 4 * i && i + 100 <= |w|
    modifies reader
    ensures reader.Valid() && reader.position == old(reader.position) + 400
    ensures m == JointVectorsOfWords(w, i, 25)
  {
    m := map[];
    var j := 0;
    while j < 25
      invariant 0 <= j <= 25
      invariant reader.Valid() && reader.position == 4 * i + 16 * j
      invariant m == JointVectorsOfWords(w, i, j)
    {
      var v := ReadVector(reader, w, i + 4 * j);
      m := m[j := v];
      j := j + 1;
    }
  }

  /** The foreach over the joint types filling the tracking state dictionary. */
  method ReadJointStates(reader: BinaryReader, ghost w: seq<Word>, ghost i: nat) returns (m: map<JointType, int>)
    requires reader.Valid() && WordsOf(reader.data, w) && reader.position == 4 * i && i + 25 <= |w|
    modifies reader
    ensures reader.Valid() && reader.position == old(reader.position) + 100
    ensures m == JointStatesOfWords(w, i, 25)
  {
    m := map[];
    var j := 0;
    while j < 25
      invariant 0 <= j <= 25
      invariant reader.Valid() && reader.position == 4 * i + 4 * j
      invariant m == JointStatesOfWords(w, i, j)
    {
      var state := ReadInt32At(reader, w, i + j);
      m := m[j := state];
      j := j + 1;
    }
  }

  /** XEFBodyData.FromReader: the 1040 bytes of one body record. */
  method ReadBody(reader: BinaryReader, ghost w: seq<Word>, ghost i: nat) returns (b: BodyData)
    requires reader.Valid() && WordsOf(reader.data, w) && reader.position == 4 * i && i + BodyWordCount <= |w|
    modifies reader
    ensures reader.Valid() && reader.position == old(reader.position) + 1040
    ensures b == BodyOfWords(w, i)
  {
    var positions, orientations, states := ReadJoints(reader, w, i);
    var expression, handLeft, handRight, trackingId, trackingState, lean, qualityFlags := ReadBodyTail(reader, w, i + 225);
    b := BodyData(positions, orientations, states, expression, handLeft, handRight,
                  trackingId, trackingState, lean, qualityFlags);
    BodyFromFields(w, i, b);
  }

  lemma BodyFromFields(w: seq<Word>, i: nat, b: BodyData)
    requires i + BodyWordCount <= |w|
    requires b.jointPositions == JointVectorsOfWords(w, i, 25) && b.jointOrientations == JointVectorsOfWords(w, i + 100, 25)
    requires b.jointTrackingStates == JointStatesOfWords(w, i + 200, 25)
    requires b.expression == ExpressionOfWords(w, i + 225)
    requires b.handLeft == HandOfWords(w, i + 245) && b.handRight == HandOfWords(w, i + 248)
    requires b.trackingId == U64Of(w[i + 252], w[i + 253]) && b.trackingState == Int32Of(w[i + 254])
    requires b.lean == LeanOfWords(w, i + 255) && b.qualityFlags == w[i + 259]
    ensures b == BodyOfWords(w, i)
  {
  }

  /** The three joint dictionaries at the head of a body record. */
  method ReadJoints(reader: BinaryReader, ghost w: seq<Word>, ghost i: nat)
    returns (positions: map<JointType, Vector>, orientations: map<JointType, Vector>, states: map<JointType, int>)
    requires reader.Valid() && WordsOf(reader.data, w) && reader.position == 4 * i && i + 225 <= |w|
    modifies reader
    ensures reader.Valid() && reader.position == old(reader.position) + 900
    ensures positions == JointVectorsOfWords(w, i, 25) && orientations == JointVectorsOfWords(w, i + 100, 25)
    ensures states == JointStatesOfWords(w, i + 200, 25)
  {
    positions := ReadJointVectors(reader, w, i);
    orientations := ReadJointVectors(reader, w, i + 100);
    states := ReadJointStates(reader, w, i + 200);
  }

  /** The rest of a body record: expression, hands, padding, tracking id and state, lean, quality flags. */
  method ReadBodyTail(reader: BinaryReader, ghost w: seq<Word>, ghost i: nat)
    returns (expression: ExpressionData, handLeft: HandData, handRight: HandData, trackingId: nat,
             trackingState: int, lean: LeanData, qualityFlags: Word)
    requires reader.Valid() && WordsOf(reader.data, w) && reader.position == 4 * i && i + 35 <= |w|
    modifies reader
    ensures reader.Valid() && reader.position == old(reader.position) + 140
    ensures expression == ExpressionOfWords(w, i)
    ensures handLeft == HandOfWords(w, i + 20) && handRight == HandOfWords(w, i + 23)
    ensures trackingId == U64Of(w[i + 27], w[i + 28]) && trackingState == Int32Of(w[i + 29])
    ensures lean == LeanOfWords(w, i + 30) && qualityFlags == w[i + 34]
  {
    expression := ReadExpression(reader, w, i);
    handLeft := ReadHand(reader, w, i + 20);
    handRight := ReadHand(reader, w, i + 23);
    trackingId, trackingState := ReadTracking(reader, w, i + 26);
    lean := ReadLean(reader, w, i + 30);
    qualityFlags := ReadUInt32At(reader, w, i + 34);
  }

  /** The padding word, the tracking id and the body's tracking state. */
  method ReadTracking(reader: BinaryReader, ghost w: seq<Word>, ghost i: nat) returns (trackingId: nat, trackingState: int)
    requires reader.Valid() && WordsOf(reader.data, w) && reader.position == 4 * i && i + 4 <= |w|
    modifies reader
    ensures reader.Valid() && reader.position == old(reader.position) + 16
    ensures trackingId == U64Of(w[i + 1], w[i + 2]) && trackingState == Int32Of(w[i + 3])
  {
    var padding := ReadInt32At(reader, w, i);
    trackingId := ReadUInt64At(reader, w, i + 1);
    trackingState := ReadInt32At(reader, w, i + 3);
  }

  /**
   * XEFBodyFrame.FromByteArray. A payload shorter than a frame makes one of
   * the reads throw EndOfStreamException; a longer one is read only as far
   * as the frame goes.
   */
  method FromByteArray(data: seq<Byte>) returns (res: Result<BodyFrame, XefDecoding.Fault>)
    ensures res == if |data| < FrameSize then Failure(XefDecoding.EndOfStream) else Success(BodyFrameAt(data))
  {
    if |data| < FrameSize {
      return Failure(XefDecoding.EndOfStream);
    }
    WordsAtWordsOf(data, FrameWordCount);
    var reader := new BinaryReader(data);
    var frame := ReadFrame(reader, WordsAt(data, 0, FrameWordCount));
    res := Success(frame);
  }

  /** The frame's fields, in order, from the start of the payload. */
  method ReadFrame(reader: BinaryReader, ghost w: seq<Word>) returns (frame: BodyFrame)
    requires reader.Valid() && WordsOf(reader.data, w) && reader.position == 0 && |w| == FrameWordCount
    modifies reader
    ensures frame == FrameOfWords(w)
  {
    var floorClipPlane := ReadVector(reader, w, 0);
    var up := ReadVector(reader, w, 4);
    var bodies := ReadBodies(reader, w);
    var qualityFlags := ReadUInt32At(reader, w, 1568);
    var padding := ReadInt32At(reader, w, 1569);
    padding := ReadInt32At(reader, w, 1570);
    padding := ReadInt32At(reader, w, 1571);
    frame := BodyFrame(floorClipPlane, up, bodies, qualityFlags);
  }

  /** The for loop filling the frame's six body records. */
  method ReadBodies(reader: BinaryReader, ghost w: seq<Word>) returns (bodies: seq<BodyData>)
    requires reader.Valid() && WordsOf(reader.data, w) && reader.position == 32 && |w| == FrameWordCount
    modifies reader
    ensures reader.Valid() && reader.position == 32 + 1040 * BodyCount
    ensures bodies == BodiesOfWords(w, BodyCount)
  {
    bodies := [];
    for k := 0 to BodyCount
      invariant reader.Valid() && reader.position == 32 + 1040 * k
      invariant bodies == BodiesOfWords(w, k)
    {
      var body := ReadBody(reader, w, 8 + 260 * k);
      bodies := bodies + [body];
    }
  }
}
