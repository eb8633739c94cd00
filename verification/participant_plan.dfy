/** `prepareParticipantTimeline` (app.js:302-408): from the plan, the trials one
    participant sees. Per identity, the rows are grouped by method, one
    variant per method is chosen by hash, and the identity's trials are
    shuffled; the practice trials come from the training rows or, when there
    are none, from two built-in images (`getDefaultPracticeStimuli`,
    app.js:478-513); the attention checks come from `buildAttentionConfig`;
    and every image is listed once for preloading. */
module ParticipantPlan {
  import opened JsString
  import opened Rows
  import opened Seqs
  import opened Buckets
  import opened Shuffle
  import opened Variant
  import opened Partition
  import opened Attention

  /** One trial: the stimulus shown, its true and masked method, and the row
      it came from. */
  datatype Trial = Trial(
    identityId: string,
    identityDisplay: string,
    methodTrue: string,
    methodMask: string,
    variant: string,
    imageUrl: string,
    thumbUrl: string,
    referenceUrl: string,
    metadata: Row)

  /** The trials of one identity, in the participant's order. */
  datatype IdentityBlock = IdentityBlock(identityId: string, identityDisplay: string, trials: seq<Trial>)

  datatype ParticipantTimeline = ParticipantTimeline(
    identityStimuli: seq<IdentityBlock>,
    trainingStimuli: seq<Trial>,
    attention: AttentionConfig,
    preloadImages: seq<string>)

  /** `(row.image_url || '').trim()` is non-empty. */
  predicate HasImage(row: Row) {
    Trim(Field(row, "image_url")) != []
  }

  /** A row that enters the method map: trimmed method and trimmed image URL
      both non-empty. */
  predicate IsCandidate(row: Row) {
    MethodOf(row) != [] && HasImage(row)
  }

  /** The `methodMap` of an identity: its candidate rows grouped by trimmed
      method, methods in first-seen order. */
  function MethodGroups(rows: seq<Row>): seq<Bucket<Row>> {
    GroupBy(MethodOf, Filter(IsCandidate, rows))
  }

  /** `row.ref_url || row.reference_url || row.reference_image || last`. */
  function ReferenceOf(row: Row, last: string): (r: string)
    ensures last != [] ==> r != []
  {
    Or(Field(row, "ref_url"), Or(Field(row, "reference_url"), Or(Field(row, "reference_image"), last)))
  }

  /** An image URL whose trimmed form is non-empty is itself non-empty. */
  lemma ImageNonEmpty(row: Row)
    requires HasImage(row)
    ensures Field(row, "image_url") != []
  {
  }

  /** How one participant picks the variant of a method of an identity: the
      method name and its rows give the chosen row, or `null`. */
  type Chooser = (string, seq<Row>) -> Option<Row>

  /** `chooseVariantForParticipant` with the participant and the identity fixed. */
  function VariantChooser(pid: string, identityId: string): Chooser {
    (methodName: string, variants: seq<Row>) => ChooseVariant(pid, identityId, methodName, variants)
  }

  /** A chooser that picks one of the given rows, and does so whenever there
      is one. */
  ghost predicate ChoosesMember(choose: Chooser) {
    forall m, vs :: (choose(m, vs).Some? <==> vs != []) && (choose(m, vs).Some? ==> choose(m, vs).value in vs)
  }

  lemma VariantChooserChoosesMember(pid: string, identityId: string)
    ensures ChoosesMember(VariantChooser(pid, identityId))
  {
  }

  /** The trial of one method of an identity, or `null` when no variant is
      chosen or the chosen one has no image. */
  function MethodTrial(choose: Chooser, identityId: string, maskMap: map<string, string>, group: Bucket<Row>): (t: Option<Trial>)
    ensures t.Some? ==> t.value.methodTrue == group.key && t.value.identityId == identityId
    ensures t.Some? ==> choose(group.key, group.items) == Some(t.value.metadata) && HasImage(t.value.metadata)
    ensures t.Some? ==> t.value.methodMask != [] && t.value.imageUrl == Field(t.value.metadata, "image_url")
    ensures t.Some? && group.key in maskMap && maskMap[group.key] != [] ==> t.value.methodMask == maskMap[group.key]
    ensures t.Some? && !(group.key in maskMap && maskMap[group.key] != []) ==> t.value.methodMask == "?"
  {
    match choose(group.key, group.items)
    case None => None
    case Some(chosen) =>
      if !HasImage(chosen) then None
      else
        var imageUrl := Field(chosen, "image_url");
        Some(Trial(
          identityId,
          Or(Field(chosen, "identity_label"), identityId),
          group.key,
          Lookup(maskMap, group.key, "?"),
          Field(chosen, "variant"),
          imageUrl,
          Or(Field(chosen, "thumb_url"), imageUrl),
          ReferenceOf(chosen, ""),
          chosen))
  }

  /** A method whose rows all carry an image always yields a trial: the
      `!(chosen.image_url || '').trim()` check cannot fire on a group built
      from candidate rows. */
  lemma MethodTrialPresent(choose: Chooser, identityId: string, maskMap: map<string, string>, group: Bucket<Row>)
    requires ChoosesMember(choose)
    requires group.items != []
    requires forall r :: r in group.items ==> HasImage(r)
    ensures MethodTrial(choose, identityId, maskMap, group).Some?
  {
    assert choose(group.key, group.items).Some?;
  }

  /** The trials of an identity before the shuffle, one per method. */
  function MethodTrials(choose: Chooser, identityId: string, maskMap: map<string, string>, rows: seq<Row>): seq<Trial> {
    Collect((g: Bucket<Row>) => MethodTrial(choose, identityId, maskMap, g), MethodGroups(rows))
  }

  /** The shuffle key of an identity's trials. */
  function BlockShuffleKey(pid: string, identityId: string): string {
    pid + "|" + identityId + "|methods"
  }

  /** The block of one identity, or `null` when none of its methods yields a
      trial. */
  function IdentityBlockOf(pid: string, maskMap: map<string, string>, identity: Bucket<Row>): (b: Option<IdentityBlock>)
    ensures b.Some? ==> b.value.trials != [] && b.value.identityId == identity.key
    ensures b.Some? ==> multiset(b.value.trials) == multiset(MethodTrials(VariantChooser(pid, identity.key), identity.key, maskMap, identity.items))
  {
    var methods := MethodTrials(VariantChooser(pid, identity.key), identity.key, maskMap, identity.items);
    if methods == [] then None
    else
      var firstLabel := if identity.items != [] then Field(identity.items[0], "identity_label") else "";
      Some(IdentityBlock(identity.key, Or(firstLabel, identity.key), SeededShuffle(methods, BlockShuffleKey(pid, identity.key))))
  }

  /** `plan.identities.map(...).filter(Boolean)`. */
  function IdentityStimuli(pid: string, maskMap: map<string, string>, identities: seq<Bucket<Row>>): seq<IdentityBlock> {
    Collect((identity: Bucket<Row>) => IdentityBlockOf(pid, maskMap, identity), identities)
  }

  /** `${index + 1}`. */
  function Ordinal(index: nat): string {
    NatToDecimal(index + 1)
  }

  /** The practice trial made from the `index`-th training row that has an
      image. The mask is looked up under `String(row.method)`, untrimmed. */
  function TrainingTrial(maskMap: map<string, string>, row: Row, index: nat): (t: Trial)
    ensures t.metadata == row && t.imageUrl == Field(row, "image_url")
    ensures t.identityId != [] && t.identityDisplay != [] && t.methodTrue != [] && t.methodMask != []
    ensures Field(row, "identity_id") == [] ==> t.identityId == "practice_" + Ordinal(index)
    ensures Field(row, "method") == [] ==> t.methodTrue == "Practice " + Ordinal(index)
  {
    Trial(
      Or(Field(row, "identity_id"), "practice_" + Ordinal(index)),
      Or(Field(row, "identity_label"), "Practice Identity"),
      Or(Field(row, "method"), "Practice " + Ordinal(index)),
      Lookup(maskMap, PropertyKey(FieldValue(row, "method")), "Demo " + Ordinal(index)),
      Field(row, "variant"),
      Field(row, "image_url"),
      Or(Field(row, "thumb_url"), Field(row, "image_url")),
      ReferenceOf(row, Field(row, "image_url")),
      row)
  }

  /** The training rows that have an image, each made a practice trial
      numbered by its position among them. */
  function TrainingFromRows(maskMap: map<string, string>, rows: seq<Row>): (r: seq<Trial>)
    ensures |r| == |Filter(HasImage, rows)|
    ensures forall k :: 0 <= k < |r| ==> r[k].metadata == Filter(HasImage, rows)[k]
  {
    var kept := Filter(HasImage, rows);
    seq(|kept|, k requires 0 <= k < |kept| => TrainingTrial(maskMap, kept[k], k))
  }

  /** The two built-in practice images, as data URLs. The SVG markup is not
      modelled: each is the data-URL prefix followed by a token naming it. */
  const PracticeCleanImage: string := SvgDataUrlPrefix + "practice-caricature"
  const PracticeStylizedImage: string := SvgDataUrlPrefix + "practice-stylized-demo"

  /** `getDefaultPracticeStimuli()`. */
  function DefaultPracticeStimuli(): (r: seq<Trial>)
    ensures |r| == 2
    ensures forall k :: 0 <= k < 2 ==> r[k].imageUrl != [] && r[k].referenceUrl == PracticeCleanImage
    ensures r[0].methodTrue != r[1].methodTrue
  {
    var origin := map["origin" := "generated-placeholder"];
    [ Trial("practice_demo", "Practice Identity", "Practice Reference", "Demo", "practice-clean",
            PracticeCleanImage, PracticeCleanImage, PracticeCleanImage, origin),
      Trial("practice_demo", "Practice Identity", "Practice Stylized", "Demo", "practice-stylized",
            PracticeStylizedImage, PracticeStylizedImage, PracticeCleanImage, origin) ]
  }

  /** `trainingStimuli`: from the training rows when there are any, else the
      built-in pair. */
  function TrainingStimuli(maskMap: map<string, string>, trainingRows: seq<Row>): seq<Trial> {
    if trainingRows != [] then TrainingFromRows(maskMap, trainingRows) else DefaultPracticeStimuli()
  }

  /** The images a trial adds to the preload set, thumbnail first. */
  function TrialImages(t: Trial): seq<string> {
    [t.thumbUrl, t.imageUrl]
  }

  function BlockImages(b: IdentityBlock): seq<string> {
    Flatten(Map(TrialImages, b.trials))
  }

  /** Every `preloadImages.add` argument in call order: identity trials,
      practice trials, then the two attention images. */
  function PreloadCandidates(blocks: seq<IdentityBlock>, training: seq<Trial>, attention: AttentionConfig): seq<string> {
    Flatten(Map(BlockImages, blocks)) + Flatten(Map(TrialImages, training))
      + [attention.obviousPair.left.imageUrl, attention.obviousPair.right.imageUrl]
  }

  predicate IsNonEmpty(s: string) {
    s != []
  }

  /** `Array.from(preloadImages).filter(Boolean)`, where only non-empty
      strings were added to the insertion-ordered set. */
  function PreloadImages(candidates: seq<string>): seq<string> {
    Filter(IsNonEmpty, Distinct(Filter(IsNonEmpty, candidates)))
  }

  /** `prepareParticipantTimeline(plan, pid, maskMap)`. */
  function PrepareParticipantTimeline(plan: ExperimentPlan, pid: string, maskMap: map<string, string>): ParticipantTimeline {
    var blocks := IdentityStimuli(pid, maskMap, plan.identities);
    var training := TrainingStimuli(maskMap, plan.trainingRows);
    var attention := BuildAttentionConfig(plan.attentionRows, maskMap, pid);
    ParticipantTimeline(blocks, training, attention, PreloadImages(PreloadCandidates(blocks, training, attention)))
  }

  /** The method map has one group per distinct method. */
  lemma MethodGroupsDistinct(rows: seq<Row>)
    ensures DistinctBy(MethodGroups(rows), (g: Bucket<Row>) => g.key)
  {
    var c := Filter(IsCandidate, rows);
    var gs := MethodGroups(rows);
    GroupByKeys(MethodOf, c);
    DistinctFirstSeen(Map(MethodOf, c));
    forall i, j | 0 <= i < j < |gs| ensures gs[i].key != gs[j].key {
      assert Keys(gs)[i] == gs[i].key && Keys(gs)[j] == gs[j].key;
    }
  }

  /** Every row of `group` is a candidate row of `rows` with the group's
      method. */
  ghost predicate GroupOfCandidates(rows: seq<Row>, group: Bucket<Row>) {
    forall r :: r in group.items ==> r in rows && IsCandidate(r) && MethodOf(r) == group.key
  }

  /** No group of the method map is empty, and each holds candidate rows of
      the identity with the group's method. */
  lemma MethodGroupsRows(rows: seq<Row>)
    ensures forall k :: 0 <= k < |MethodGroups(rows)| ==>
              MethodGroups(rows)[k].items != [] && GroupOfCandidates(rows, MethodGroups(rows)[k])
  {
    var c := Filter(IsCandidate, rows);
    var gs := MethodGroups(rows);
    GroupByNonEmpty(MethodOf, c);
    GroupByItems(MethodOf, c);
    forall k | 0 <= k < |gs| ensures GroupOfCandidates(rows, gs[k]) {
      assert gs[k].items == Filter(HasKey(MethodOf, gs[k].key), c);
    }
  }

  /** Before the shuffle an identity has at most one trial per method. */
  lemma MethodTrialsDistinct(choose: Chooser, identityId: string, maskMap: map<string, string>, rows: seq<Row>)
    ensures DistinctBy(MethodTrials(choose, identityId, maskMap, rows), (t: Trial) => t.methodTrue)
  {
    MethodGroupsDistinct(rows);
    CollectDistinctBy((g: Bucket<Row>) => MethodTrial(choose, identityId, maskMap, g), MethodGroups(rows),
      (t: Trial) => t.methodTrue, (g: Bucket<Row>) => g.key);
  }

  /** A trial of identity `identityId` that shows one of `rows` with both a
      method and an image, the trial's method being the row's. */
  ghost predicate ShowsCandidate(identityId: string, rows: seq<Row>, t: Trial) {
    t.identityId == identityId && t.metadata in rows && IsCandidate(t.metadata)
    && MethodOf(t.metadata) == t.methodTrue
  }

  /** The trial of a group of candidate rows shows one of them. */
  lemma MethodTrialShows(choose: Chooser, identityId: string, maskMap: map<string, string>, group: Bucket<Row>, rows: seq<Row>)
    requires ChoosesMember(choose)
    requires GroupOfCandidates(rows, group)
    requires MethodTrial(choose, identityId, maskMap, group).Some?
    ensures ShowsCandidate(identityId, rows, MethodTrial(choose, identityId, maskMap, group).value)
  {
    var t := MethodTrial(choose, identityId, maskMap, group).value;
    assert choose(group.key, group.items) == Some(t.metadata);
    assert t.metadata in group.items;
  }

  /** Each trial shows a candidate row of the identity with the trial's
      method. */
  lemma MethodTrialsRows(choose: Chooser, identityId: string, maskMap: map<string, string>, rows: seq<Row>)
    requires ChoosesMember(choose)
    ensures forall t :: t in MethodTrials(choose, identityId, maskMap, rows) ==> ShowsCandidate(identityId, rows, t)
  {
    var gs := MethodGroups(rows);
    MethodGroupsRows(rows);
    forall i | 0 <= i < |gs| && MethodTrial(choose, identityId, maskMap, gs[i]).Some?
      ensures ShowsCandidate(identityId, rows, MethodTrial(choose, identityId, maskMap, gs[i]).value)
    {
      MethodTrialShows(choose, identityId, maskMap, gs[i], rows);
    }
    CollectAll((g: Bucket<Row>) => MethodTrial(choose, identityId, maskMap, g), gs,
      (t: Trial) => ShowsCandidate(identityId, rows, t));
  }

  /** The trials of an identity's block: at most one per method, each showing
      a candidate row of that identity with the trial's method. */
  lemma IdentityBlockTrials(pid: string, maskMap: map<string, string>, identity: Bucket<Row>)
    requires IdentityBlockOf(pid, maskMap, identity).Some?
    ensures var b := IdentityBlockOf(pid, maskMap, identity).value;
      && DistinctBy(b.trials, (t: Trial) => t.methodTrue)
      && forall t :: t in b.trials ==> ShowsCandidate(identity.key, identity.items, t)
  {
    var methods := MethodTrials(VariantChooser(pid, identity.key), identity.key, maskMap, identity.items);
    VariantChooserChoosesMember(pid, identity.key);
    MethodTrialsDistinct(VariantChooser(pid, identity.key), identity.key, maskMap, identity.items);
    MethodTrialsRows(VariantChooser(pid, identity.key), identity.key, maskMap, identity.items);
    ShuffleKeepsDistinctBy(methods, BlockShuffleKey(pid, identity.key), (t: Trial) => t.methodTrue);
    var b := IdentityBlockOf(pid, maskMap, identity).value;
    forall t | t in b.trials ensures t in methods {
      assert t in multiset(b.trials);
    }
  }

  /** An identity gets a block exactly when one of its rows has both a method
      and an image; otherwise it is dropped. */
  lemma IdentityBlockPresent(pid: string, maskMap: map<string, string>, identity: Bucket<Row>)
    ensures IdentityBlockOf(pid, maskMap, identity).Some? <==>
              exists r :: r in identity.items && IsCandidate(r)
  {
    var methods := MethodTrials(VariantChooser(pid, identity.key), identity.key, maskMap, identity.items);
    VariantChooserChoosesMember(pid, identity.key);
    if methods != [] {
      MethodTrialsRows(VariantChooser(pid, identity.key), identity.key, maskMap, identity.items);
      assert methods[0] in methods;
    }
    if r :| r in identity.items && IsCandidate(r) {
      CandidateGivesTrial(VariantChooser(pid, identity.key), identity.key, maskMap, identity.items, r);
    }
  }

  /** One candidate row is enough for an identity to have a trial. */
  lemma CandidateGivesTrial(choose: Chooser, identityId: string, maskMap: map<string, string>, rows: seq<Row>, r: Row)
    requires ChoosesMember(choose)
    requires r in rows && IsCandidate(r)
    ensures MethodTrials(choose, identityId, maskMap, rows) != []
  {
    var gs := MethodGroups(rows);
    CandidateGivesGroup(rows, r);
    MethodGroupsRows(rows);
    assert GroupOfCandidates(rows, gs[0]);
    MethodTrialPresent(choose, identityId, maskMap, gs[0]);
    CollectComplete((g: Bucket<Row>) => MethodTrial(choose, identityId, maskMap, g), gs);
  }

  /** One candidate row is enough for the method map to be non-empty. */
  lemma CandidateGivesGroup(rows: seq<Row>, r: Row)
    requires r in rows && IsCandidate(r)
    ensures MethodGroups(rows) != []
  {
    var c := Filter(IsCandidate, rows);
    assert r in c;
    GroupByKeys(MethodOf, c);
    DistinctFirstSeen(Map(MethodOf, c));
    var i :| 0 <= i < |c| && c[i] == r;
    assert Map(MethodOf, c)[i] == MethodOf(r);
    assert MethodOf(r) in Keys(MethodGroups(rows));
  }

  /** Every block has trials and belongs to one of the plan's identities; with
      distinct identity ids (as the plan's `Map` guarantees) no identity has
      two blocks. */
  lemma IdentityStimuliShape(pid: string, maskMap: map<string, string>, identities: seq<Bucket<Row>>)
    ensures forall b :: b in IdentityStimuli(pid, maskMap, identities) ==>
              b.trials != [] && exists i :: 0 <= i < |identities| && identities[i].key == b.identityId
    ensures NoDup(Keys(identities)) ==>
              DistinctBy(IdentityStimuli(pid, maskMap, identities), (b: IdentityBlock) => b.identityId)
  {
    var f := (identity: Bucket<Row>) => IdentityBlockOf(pid, maskMap, identity);
    CollectSound(f, identities);
    if NoDup(Keys(identities)) {
      assert DistinctBy(identities, (g: Bucket<Row>) => g.key) by {
        forall i, j | 0 <= i < j < |identities| ensures identities[i].key != identities[j].key {
          assert Keys(identities)[i] == identities[i].key && Keys(identities)[j] == identities[j].key;
        }
      }
      CollectDistinctBy(f, identities, (b: IdentityBlock) => b.identityId, (g: Bucket<Row>) => g.key);
    }
  }

  /** No identity with a usable row is lost: it has a block. */
  lemma IdentityStimuliComplete(pid: string, maskMap: map<string, string>, identities: seq<Bucket<Row>>, i: nat, r: Row)
    requires i < |identities| && r in identities[i].items && IsCandidate(r)
    ensures exists b :: b in IdentityStimuli(pid, maskMap, identities) && b.identityId == identities[i].key
  {
    IdentityBlockPresent(pid, maskMap, identities[i]);
    CollectComplete((identity: Bucket<Row>) => IdentityBlockOf(pid, maskMap, identity), identities);
    var b := IdentityBlockOf(pid, maskMap, identities[i]).value;
    assert b in IdentityStimuli(pid, maskMap, identities);
  }

  /** Which practice trials there are: the built-in pair only when there are
      no training rows at all; otherwise one per training row with an image,
      so training rows that all lack an image leave no practice trials. */
  lemma TrainingStimuliCases(maskMap: map<string, string>, trainingRows: seq<Row>)
    ensures trainingRows == [] ==> TrainingStimuli(maskMap, trainingRows) == DefaultPracticeStimuli()
    ensures trainingRows != [] ==> |TrainingStimuli(maskMap, trainingRows)| == |Filter(HasImage, trainingRows)|
    ensures trainingRows != [] && (forall k :: 0 <= k < |trainingRows| ==> !HasImage(trainingRows[k])) ==>
              TrainingStimuli(maskMap, trainingRows) == []
  {
    if forall k :: 0 <= k < |trainingRows| ==> !HasImage(trainingRows[k]) {
      FilterNone(HasImage, trainingRows);
    }
  }

  /** Practice trials without an identity id get distinct fallback ids, since
      each is numbered by its own position. */
  lemma TrainingFallbackIdsDistinct(maskMap: map<string, string>, a: Row, b: Row, i: nat, j: nat)
    requires i != j
    requires Field(a, "identity_id") == [] && Field(b, "identity_id") == []
    ensures TrainingTrial(maskMap, a, i).identityId != TrainingTrial(maskMap, b, j).identityId
  {
    var pa, pb := "practice_" + Ordinal(i), "practice_" + Ordinal(j);
    if pa == pb {
      assert Ordinal(i) == pa[9..] && Ordinal(j) == pb[9..];
      NatToDecimalInjective(i + 1, j + 1);
    }
  }

  /** A training row without a `method` column looks its mask up under the
      key "undefined", the string form of the missing value. */
  lemma TrainingMaskOfMissingMethod(maskMap: map<string, string>, row: Row, index: nat)
    requires "method" !in row
    ensures TrainingTrial(maskMap, row, index).methodMask == Lookup(maskMap, "undefined", "Demo " + Ordinal(index))
  {
    assert PropertyKey(FieldValue(row, "method")) == "undefined";
  }

  /** The preload list holds every non-empty image once, in the order of its
      first `add`; the trailing `filter(Boolean)` removes nothing. */
  lemma PreloadImagesSpec(candidates: seq<string>)
    ensures FirstSeenOrder(PreloadImages(candidates), Filter(IsNonEmpty, candidates))
    ensures forall x :: x in PreloadImages(candidates) <==> x in candidates && x != []
    ensures PreloadImages(candidates) == Distinct(Filter(IsNonEmpty, candidates))
  {
    var nonEmpty := Filter(IsNonEmpty, candidates);
    var d := Distinct(nonEmpty);
    DistinctFirstSeen(nonEmpty);
    FilterAll(IsNonEmpty, d);
  }

  /** Each trial's two images are among the preload candidates. */
  lemma TrialImagesAreCandidates(blocks: seq<IdentityBlock>, training: seq<Trial>, attention: AttentionConfig)
    ensures forall b, t :: b in blocks && t in b.trials ==>
              t.thumbUrl in PreloadCandidates(blocks, training, attention)
              && t.imageUrl in PreloadCandidates(blocks, training, attention)
    ensures forall t :: t in training ==>
              t.thumbUrl in PreloadCandidates(blocks, training, attention)
              && t.imageUrl in PreloadCandidates(blocks, training, attention)
  {
    var fromBlocks := Flatten(Map(BlockImages, blocks));
    var fromTraining := Flatten(Map(TrialImages, training));
    assert PreloadCandidates(blocks, training, attention)
        == fromBlocks + fromTraining + [attention.obviousPair.left.imageUrl, attention.obviousPair.right.imageUrl];
    forall b, t | b in blocks && t in b.trials
      ensures t.thumbUrl in fromBlocks && t.imageUrl in fromBlocks
    {
      var i :| 0 <= i < |blocks| && blocks[i] == b;
      var k :| 0 <= k < |b.trials| && b.trials[k] == t;
      var inner := Map(TrialImages, b.trials);
      assert inner[k] == [t.thumbUrl, t.imageUrl];
      FlattenMember(inner, k, t.thumbUrl);
      FlattenMember(inner, k, t.imageUrl);
      assert Map(BlockImages, blocks)[i] == BlockImages(b);
      FlattenMember(Map(BlockImages, blocks), i, t.thumbUrl);
      FlattenMember(Map(BlockImages, blocks), i, t.imageUrl);
    }
    forall t | t in training
      ensures t.thumbUrl in fromTraining && t.imageUrl in fromTraining
    {
      var k :| 0 <= k < |training| && training[k] == t;
      assert Map(TrialImages, training)[k] == [t.thumbUrl, t.imageUrl];
      FlattenMember(Map(TrialImages, training), k, t.thumbUrl);
      FlattenMember(Map(TrialImages, training), k, t.imageUrl);
    }
  }

  /** Every image the participant can see is preloaded: the image of every
      identity trial, every non-empty practice image, and the non-empty
      attention images; nothing else is. */
  lemma PreloadCoversTimeline(plan: ExperimentPlan, pid: string, maskMap: map<string, string>)
    ensures var tl := PrepareParticipantTimeline(plan, pid, maskMap);
      && (forall b, t :: b in tl.identityStimuli && t in b.trials ==> t.imageUrl in tl.preloadImages)
      && (forall t :: t in tl.trainingStimuli && t.imageUrl != [] ==> t.imageUrl in tl.preloadImages)
      && (tl.attention.obviousPair.left.imageUrl != [] ==> tl.attention.obviousPair.left.imageUrl in tl.preloadImages)
      && (tl.attention.obviousPair.right.imageUrl != [] ==> tl.attention.obviousPair.right.imageUrl in tl.preloadImages)
      && (forall x :: x in tl.preloadImages ==> x != [])
  {
    var tl := PrepareParticipantTimeline(plan, pid, maskMap);
    var candidates := PreloadCandidates(tl.identityStimuli, tl.trainingStimuli, tl.attention);
    PreloadImagesSpec(candidates);
    TrialImagesAreCandidates(tl.identityStimuli, tl.trainingStimuli, tl.attention);
    forall b, t | b in tl.identityStimuli && t in b.trials ensures t.imageUrl != [] {
      BlockImagesNonEmpty(pid, maskMap, plan.identities, b, t);
    }
    assert candidates[|candidates| - 1] == tl.attention.obviousPair.right.imageUrl;
    assert candidates[|candidates| - 2] == tl.attention.obviousPair.left.imageUrl;
  }

  /** The image URL of every identity trial is non-empty. */
  lemma BlockImagesNonEmpty(pid: string, maskMap: map<string, string>, identities: seq<Bucket<Row>>, b: IdentityBlock, t: Trial)
    requires b in IdentityStimuli(pid, maskMap, identities) && t in b.trials
    ensures t.imageUrl != [] && t.imageUrl == Field(t.metadata, "image_url")
  {
    var f := (identity: Bucket<Row>) => IdentityBlockOf(pid, maskMap, identity);
    CollectSound(f, identities);
    var i :| 0 <= i < |identities| && f(identities[i]) == Some(b);
    BlockTrialImage(pid, maskMap, identities[i], t);
  }

  lemma BlockTrialImage(pid: string, maskMap: map<string, string>, identity: Bucket<Row>, t: Trial)
    requires IdentityBlockOf(pid, maskMap, identity).Some?
    requires t in IdentityBlockOf(pid, maskMap, identity).value.trials
    ensures t.imageUrl != [] && t.imageUrl == Field(t.metadata, "image_url")
  {
    var choose := VariantChooser(pid, identity.key);
    var methods := MethodTrials(choose, identity.key, maskMap, identity.items);
    assert t in methods by {
      assert t in multiset(IdentityBlockOf(pid, maskMap, identity).value.trials);
    }
    var gs := MethodGroups(identity.items);
    var f := (g: Bucket<Row>) => MethodTrial(choose, identity.key, maskMap, g);
    CollectSound(f, gs);
    var k :| 0 <= k < |gs| && f(gs[k]) == Some(t);
    MethodTrialImage(choose, identity.key, maskMap, gs[k], t);
  }

  /** A trial built for a method shows a non-empty image. */
  lemma MethodTrialImage(choose: Chooser, identityId: string, maskMap: map<string, string>, group: Bucket<Row>, t: Trial)
    requires MethodTrial(choose, identityId, maskMap, group) == Some(t)
    ensures t.imageUrl != [] && t.imageUrl == Field(t.metadata, "image_url")
  {
  }
}
