/** The attention checks of a participant: `interpretBoolean` (app.js:89-99),
    `buildAttentionConfig` (app.js:410-464), `mapAttentionStimulus`
    (app.js:466-476) and the built-in fallback pair `getDefaultObviousPair`
    (app.js:515-552). */
module Attention {
  import opened JsString
  import opened Rows
  import opened Seqs
  import opened Buckets
  import opened PropertyOrder
  import opened Shuffle
  import opened Partition

  /** The strings `interpretBoolean` accepts once trimmed and lowered. */
  predicate IsTruthyWord(s: string) {
    s == "1" || s == "true" || s == "yes" || s == "y"
  }

  /** `interpretBoolean(value)`: a boolean is itself, `undefined` and `null`
      are false, anything else is true exactly when its string form, trimmed
      and lowered, is one of `1`, `true`, `yes`, `y`. */
  function InterpretBoolean(v: JsValue): (b: bool)
    ensures v.Bool? ==> b == v.b
    ensures v.Undefined? || v.Null? ==> !b
    ensures v.Str? ==> (b <==> IsTruthyWord(Lower(Trim(v.s))))
  {
    match v
    case Bool(b) => b
    case Undefined => false
    case Null => false
    case _ => IsTruthyWord(Lower(Trim(ToJsString(v))))
  }

  /** The accepted words in any letter case and with any surrounding
      whitespace: `" YES\t"` reads as true. */
  lemma InterpretBooleanPadded(a: string, w: string, b: string)
    requires AllWhitespace(a) && AllWhitespace(b)
    requires IsTruthyWord(Lower(w))
    ensures InterpretBoolean(Str(a + w + b))
  {
    assert w != [] && !IsWhitespace(w[0]) && !IsWhitespace(w[|w| - 1]) by {
      assert |Lower(w)| == |w|;
      assert Lower(w)[0] == AsciiLowerChar(w[0]);
      assert Lower(w)[|w| - 1] == AsciiLowerChar(w[|w| - 1]);
    }
    TrimOfPadded(a, w, b);
  }

  /** Numbers read as their decimal form: 1 is true, every other integer
      false. */
  lemma InterpretBooleanInt(i: int)
    ensures InterpretBoolean(Int(i)) <==> i == 1
  {
    var d := IntToDecimal(i);
    IntToDecimalPlain(i);
    IntToDecimalIsOne(i);
    TrimOfPadded([], d, []);
    assert [] + d + [] == d;
  }

  /** One image of an attention check. */
  datatype AttentionStimulus = AttentionStimulus(
    imageUrl: string,
    thumbUrl: string,
    methodTrue: string,
    methodMask: string,
    variant: string,
    metadata: Row)

  /** `mapAttentionStimulus(row, maskMap)`. */
  function MapAttentionStimulus(row: Row, maskMap: map<string, string>): (s: AttentionStimulus)
    ensures s.metadata == row
    ensures s.imageUrl == Field(row, "image_url")
    ensures s.imageUrl != [] ==> s.thumbUrl != []
    ensures Field(row, "thumb_url") != [] ==> s.thumbUrl == Field(row, "thumb_url")
    ensures Field(row, "thumb_url") == [] ==> s.thumbUrl == s.imageUrl
    ensures s.methodTrue != []
    ensures MethodOf(row) != [] ==> s.methodTrue == MethodOf(row)
    ensures MethodOf(row) == [] ==> s.methodTrue == "Unknown"
    ensures s.methodMask != []
    ensures MethodOf(row) in maskMap && maskMap[MethodOf(row)] != [] ==> s.methodMask == maskMap[MethodOf(row)]
    ensures !(MethodOf(row) in maskMap && maskMap[MethodOf(row)] != []) ==> s.methodMask == "—"
    ensures s.variant == Field(row, "variant")
  {
    var methodName := MethodOf(row);
    AttentionStimulus(
      Field(row, "image_url"),
      Or(Field(row, "thumb_url"), Field(row, "image_url")),
      Or(methodName, "Unknown"),
      Lookup(maskMap, methodName, "—"),
      Field(row, "variant"),
      row)
  }

  datatype Side = Left | Right

  datatype ObviousPairCheck = ObviousPairCheck(
    prompt: string,
    identityId: string,
    left: AttentionStimulus,
    right: AttentionStimulus,
    correct: Side)

  datatype AttentionConfig = AttentionConfig(instructionalPrompt: string, obviousPair: ObviousPairCheck)

  const DefaultInstructionalPrompt: string :=
    "Instructional attention check: Please select 6 to confirm you are reading carefully."
  const DefaultPairPrompt: string := "Which caricature looks more plausible for the attention check?"
  const DefaultAttentionPrompt: string :=
    "Attention check: One of these caricatures has been deliberately corrupted. Select the plausible image."

  /** The two generated SVG images of the fallback pair, as data URLs. The SVG
      markup is not modelled: each image is the data-URL prefix followed by a
      token naming it, which keeps the two distinct and non-empty. */
  const SvgDataUrlPrefix: string := "data:image/svg+xml;charset=utf-8,"
  const DefaultCleanImage: string := SvgDataUrlPrefix + "clean-reference"
  const DefaultCorruptedImage: string := SvgDataUrlPrefix + "corrupted-attention-check"

  /** `getDefaultObviousPair(maskMap)`. */
  function DefaultObviousPair(maskMap: map<string, string>): (c: ObviousPairCheck)
    ensures c.correct == Left
    ensures c.left.imageUrl != [] && c.right.imageUrl != [] && c.left.imageUrl != c.right.imageUrl
    ensures c.left.methodMask != [] && c.right.methodMask != []
  {
    var origin := map["origin" := "default-attention"];
    ObviousPairCheck(
      DefaultAttentionPrompt,
      "attention_default",
      AttentionStimulus(DefaultCleanImage, DefaultCleanImage, "Default Clean",
        Lookup(maskMap, "Default Clean", "CLEAN"), "attention-clean", origin),
      AttentionStimulus(DefaultCorruptedImage, DefaultCorruptedImage, "Default Corrupted",
        Lookup(maskMap, "Default Corrupted", "GLITCH"), "attention-corrupted", origin),
      Left)
  }

  /** `groups[key].length >= 2` for a key of the group object. */
  function QualifiesIn(groups: seq<Bucket<Row>>): string -> bool {
    key => match Find(groups, key)
      case Some(i) => |groups[i].items| >= 2
      case None => false
  }

  /** The key the `for (const key of Object.keys(groups))` loop stops at: the
      first key, in enumeration order, whose group has two rows or more. */
  function ChooseKey(groups: seq<Bucket<Row>>): (r: Option<string>)
    ensures r.Some? ==> QualifiesIn(groups)(r.value)
  {
    var keys := ObjectKeys(Keys(groups));
    match FirstWhere(QualifiesIn(groups), keys)
    case Some(p) => Some(keys[p])
    case None => None
  }

  /** The rows of the chosen group. */
  function ChooseGroup(groups: seq<Bucket<Row>>): (r: Option<seq<Row>>)
    ensures r.Some? ==> |r.value| >= 2
    ensures r.Some? <==> ChooseKey(groups).Some?
  {
    match ChooseKey(groups)
    case Some(key) => Some(groups[Find(groups, key).value].items)
    case None => None
  }

  /** The chosen key is a key of the groups, and every key enumerated before
      it has a group of fewer than two rows. */
  lemma ChosenKeyIsFirstQualifying(groups: seq<Bucket<Row>>)
    requires ChooseKey(groups).Some?
    ensures var keys := ObjectKeys(Keys(groups));
      exists p :: 0 <= p < |keys| && keys[p] == ChooseKey(groups).value
        && forall q :: 0 <= q < p ==> !QualifiesIn(groups)(keys[q])
  {
    var keys := ObjectKeys(Keys(groups));
    var p := FirstWhere(QualifiesIn(groups), keys).value;
    assert keys[p] == ChooseKey(groups).value;
  }

  /** No key is chosen exactly when every group has fewer than two rows. */
  lemma ChooseKeyNone(groups: seq<Bucket<Row>>)
    requires NoDup(Keys(groups))
    ensures ChooseKey(groups).None? <==> forall k :: 0 <= k < |groups| ==> |groups[k].items| < 2
  {
    var keys := ObjectKeys(Keys(groups));
    ObjectKeysPermutation(Keys(groups));
    NoneQualifies(groups, keys);
  }

  lemma NoneQualifies(groups: seq<Bucket<Row>>, keys: seq<string>)
    requires NoDup(Keys(groups))
    requires multiset(keys) == multiset(Keys(groups))
    ensures (forall p :: 0 <= p < |keys| ==> !QualifiesIn(groups)(keys[p]))
        <==> (forall k :: 0 <= k < |groups| ==> |groups[k].items| < 2)
  {
    if forall p :: 0 <= p < |keys| ==> !QualifiesIn(groups)(keys[p]) {
      forall k | 0 <= k < |groups| ensures |groups[k].items| < 2 {
        assert Keys(groups)[k] == groups[k].key;
        assert groups[k].key in multiset(keys);
        var p :| 0 <= p < |keys| && keys[p] == groups[k].key;
        assert !QualifiesIn(groups)(keys[p]);
        FindDistinct(groups, k);
      }
    }
    if forall k :: 0 <= k < |groups| ==> |groups[k].items| < 2 {
      forall p | 0 <= p < |keys| ensures !QualifiesIn(groups)(keys[p]) {
      }
    }
  }

  /** A group keyed by an array index (a numeric key) with two rows or more
      wins over every group with a named key, whatever the insertion order:
      `Object.keys` lists numeric keys first. */
  lemma ChosenKeyPrefersIndices(groups: seq<Bucket<Row>>, k: nat)
    requires NoDup(Keys(groups))
    requires k < |groups| && IsArrayIndex(groups[k].key) && |groups[k].items| >= 2
    ensures ChooseKey(groups).Some? && IsArrayIndex(ChooseKey(groups).value)
  {
    var all := Keys(groups);
    var sorted := SortBy(Filter(IsArrayIndex, all), IndexKey);
    var keys := ObjectKeys(all);
    assert keys == sorted + Filter(IsNamedKey, all);
    assert all[k] == groups[k].key;
    assert groups[k].key in multiset(sorted);
    var p0 :| 0 <= p0 < |sorted| && sorted[p0] == groups[k].key;
    FindDistinct(groups, k);
    assert QualifiesIn(groups)(keys[p0]);
    var p := FirstWhere(QualifiesIn(groups), keys).value;
    assert p <= p0;
    SortedIndicesAreIndices(all);
    assert keys[p] == sorted[p];
  }

  /** The pair built from two rows: the first row supplies the prompt and the
      identity, and `right` is correct only when the second row alone is
      marked correct. */
  function PairOf(first: Row, second: Row, maskMap: map<string, string>): (c: ObviousPairCheck)
    ensures c.prompt != [] && c.identityId != []
    ensures c.left.metadata == first && c.right.metadata == second
  {
    ObviousPairCheck(
      Or(Field(first, "attention_prompt"), DefaultPairPrompt),
      Or(Field(first, "identity_id"), "obvious_pair"),
      MapAttentionStimulus(first, maskMap),
      MapAttentionStimulus(second, maskMap),
      if InterpretBoolean(FieldValue(first, "attention_correct")) then Left
      else if InterpretBoolean(FieldValue(second, "attention_correct")) then Right
      else Left)
  }

  /** The `correct` rule of the pair: `right` exactly when the right row is
      marked correct and the left one is not. */
  lemma PairOfCorrect(first: Row, second: Row, maskMap: map<string, string>)
    ensures PairOf(first, second, maskMap).correct == Right <==>
      !InterpretBoolean(FieldValue(first, "attention_correct"))
      && InterpretBoolean(FieldValue(second, "attention_correct"))
  {
  }

  /** The shuffle key of the pair. */
  function PairShuffleKey(pid: string): string {
    pid + "|attention_pair"
  }

  /** The pair of a chosen group: its first two rows after the
      participant's shuffle of the group. */
  function PairFromGroup(group: seq<Row>, maskMap: map<string, string>, pid: string): (c: ObviousPairCheck)
    requires |group| >= 2
  {
    var shuffled := SeededShuffle(group, PairShuffleKey(pid));
    PairOf(shuffled[0], shuffled[1], maskMap)
  }

  /** The two images of a group's pair are two different rows of the group:
      two different positions of it, so the same row is never shown twice
      unless the group holds it twice. */
  lemma PairFromGroupRows(group: seq<Row>, maskMap: map<string, string>, pid: string)
    requires |group| >= 2
    ensures var c := PairFromGroup(group, maskMap, pid);
      multiset{c.left.metadata, c.right.metadata} <= multiset(group)
  {
    FrontPair(SeededShuffle(group, PairShuffleKey(pid)));
  }

  /** `buildAttentionConfig(attentionRows, maskMap, pid)`: both checks are
      always present, with a prompt and a mask on either side of the pair. */
  function BuildAttentionConfig(attentionRows: AttentionRows, maskMap: map<string, string>, pid: string): (c: AttentionConfig)
    ensures c.instructionalPrompt != [] && c.obviousPair.prompt != []
    ensures c.obviousPair.left.methodMask != [] && c.obviousPair.right.methodMask != []
  {
    var instructional := attentionRows.instructional;
    var prompt := if instructional != [] then Or(Field(instructional[0], "attention_prompt"), DefaultInstructionalPrompt)
                  else DefaultInstructionalPrompt;
    var pair := match ChooseGroup(attentionRows.obvious)
      case Some(group) => PairFromGroup(group, maskMap, pid)
      case None => DefaultObviousPair(maskMap);
    AttentionConfig(prompt, pair)
  }

  /** The instructional prompt is never empty: the first instructional row's
      prompt when it has one, otherwise the built-in text. */
  lemma InstructionalPrompt(attentionRows: AttentionRows, maskMap: map<string, string>, pid: string)
    ensures var prompt := BuildAttentionConfig(attentionRows, maskMap, pid).instructionalPrompt;
      && prompt != []
      && (attentionRows.instructional != [] && Field(attentionRows.instructional[0], "attention_prompt") != []
          ==> prompt == Field(attentionRows.instructional[0], "attention_prompt"))
      && (attentionRows.instructional == [] ==> prompt == DefaultInstructionalPrompt)
  {
  }

  /** The built-in pair is used exactly when no group has two rows. */
  lemma DefaultPairWhenNoGroup(attentionRows: AttentionRows, maskMap: map<string, string>, pid: string)
    requires NoDup(Keys(attentionRows.obvious))
    requires forall k :: 0 <= k < |attentionRows.obvious| ==> |attentionRows.obvious[k].items| < 2
    ensures BuildAttentionConfig(attentionRows, maskMap, pid).obviousPair == DefaultObviousPair(maskMap)
  {
    ChooseKeyNone(attentionRows.obvious);
  }

  /** With a group of two rows, the pair comes from the chosen group: its
      prompt and identity are never empty and both rows belong to the group. */
  lemma GroupPairWhenGroup(attentionRows: AttentionRows, maskMap: map<string, string>, pid: string, k: nat)
    requires NoDup(Keys(attentionRows.obvious))
    requires k < |attentionRows.obvious| && |attentionRows.obvious[k].items| >= 2
    ensures var group := ChooseGroup(attentionRows.obvious);
      && group.Some?
      && BuildAttentionConfig(attentionRows, maskMap, pid).obviousPair == PairFromGroup(group.value, maskMap, pid)
  {
    ChooseKeyNone(attentionRows.obvious);
  }

  /** On the groups `prepareExperimentPlan` builds, whose keys are distinct
      like any object's: without a group of two rows the pair is the built-in
      one, and with one it comes from the chosen group. */
  lemma PlanPair(rows: seq<Row>, maskMap: map<string, string>, pid: string)
    ensures var attentionRows := PrepareExperimentPlan(rows).attentionRows;
      var config := BuildAttentionConfig(attentionRows, maskMap, pid);
      && ((forall k :: 0 <= k < |attentionRows.obvious| ==> |attentionRows.obvious[k].items| < 2)
          ==> config.obviousPair == DefaultObviousPair(maskMap))
      && ((exists k :: 0 <= k < |attentionRows.obvious| && |attentionRows.obvious[k].items| >= 2)
          ==> ChooseGroup(attentionRows.obvious).Some?
              && config.obviousPair == PairFromGroup(ChooseGroup(attentionRows.obvious).value, maskMap, pid))
  {
    var attentionRows := PrepareExperimentPlan(rows).attentionRows;
    ObviousGroups(rows);
    if exists k :: 0 <= k < |attentionRows.obvious| && |attentionRows.obvious[k].items| >= 2 {
      var k :| 0 <= k < |attentionRows.obvious| && |attentionRows.obvious[k].items| >= 2;
      GroupPairWhenGroup(attentionRows, maskMap, pid, k);
    } else {
      DefaultPairWhenNoGroup(attentionRows, maskMap, pid);
    }
  }
}
