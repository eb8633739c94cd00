/** `prepareExperimentPlan` (app.js:235-288): one pass over the stimulus rows
    that sorts each row into the instructional checks, an obvious-pair group,
    the training rows, or the row list of its identity (collecting its method
    name), or drops it. */
module Partition {
  import opened JsString
  import opened Rows
  import opened Seqs
  import opened Buckets

  /** The normalised columns the classification reads (app.js:245-249). */
  function IdentityOf(row: Row): string {
    Trim(Field(row, "identity_id"))
  }

  function MethodOf(row: Row): string {
    Trim(Field(row, "method"))
  }

  /** `(row.phase || row.block || '').trim().toLowerCase()`: a whitespace-only
      `phase` still hides `block`. */
  function PhaseOf(row: Row): string {
    Lower(Trim(Or(Field(row, "phase"), Field(row, "block"))))
  }

  function AttentionTypeOf(row: Row): string {
    Lower(Trim(Field(row, "attention_type")))
  }

  function AttentionGroupOf(row: Row): string {
    Trim(Field(row, "attention_group"))
  }

  /** Where a row goes; the order of the tests is the precedence. */
  datatype RowKind = Instructional | ObviousPair | Training | Main | Dropped

  function Classify(row: Row): RowKind {
    var attentionType := AttentionTypeOf(row);
    if attentionType == "instructional" then Instructional
    else if attentionType == "obvious_pair" then ObviousPair
    else if PhaseOf(row) == "practice" || PhaseOf(row) == "training" then Training
    else if IdentityOf(row) != "" && MethodOf(row) != "" then Main
    else Dropped
  }

  predicate IsInstructional(row: Row) { Classify(row) == Instructional }
  predicate IsObviousPair(row: Row) { Classify(row) == ObviousPair }
  predicate IsTraining(row: Row) { Classify(row) == Training }
  predicate IsMain(row: Row) { Classify(row) == Main }
  predicate IsDropped(row: Row) { Classify(row) == Dropped }

  /** A main row has a non-empty identity and method. */
  lemma MainRowFields(row: Row)
    requires IsMain(row)
    ensures IdentityOf(row) != [] && MethodOf(row) != []
  {
  }

  /** `attentionRows`: the obvious-pair groups are a plain object, kept here as
      its entries in insertion order (module PropertyOrder gives the order in
      which they are enumerated). */
  datatype AttentionRows = AttentionRows(instructional: seq<Row>, obvious: seq<Bucket<Row>>)

  /** The plan; `identities` is the `Map` from identity id to its rows, read
      back as entries in insertion order. */
  datatype ExperimentPlan = ExperimentPlan(
    methodNames: seq<string>,
    identities: seq<Bucket<Row>>,
    trainingRows: seq<Row>,
    attentionRows: AttentionRows)

  /** The synthetic key `obvious_${Object.keys(attentionRows.obvious).length}`. */
  function FallbackKey(groupCount: nat): string {
    "obvious_" + NatToDecimal(groupCount)
  }

  predicate IsFallbackKey(k: string) {
    |k| > 8 && k[..8] == "obvious_" && IsCanonicalDecimal(k[8..])
  }

  /** `attentionGroup || identityId`: the key a row asks for, empty if none. */
  function PreferredKey(row: Row): string {
    Or(AttentionGroupOf(row), IdentityOf(row))
  }

  /** The key of an obvious-pair row when `groupCount` groups exist already. */
  function ObviousKey(row: Row, groupCount: nat): (k: string)
    ensures k != []
    ensures PreferredKey(row) != [] ==> k == PreferredKey(row)
    ensures PreferredKey(row) == [] ==> IsFallbackKey(k)
  {
    var k := Or(PreferredKey(row), FallbackKey(groupCount));
    assert PreferredKey(row) == [] ==> k[8..] == NatToDecimal(groupCount);
    k
  }

  const EmptyPlan := ExperimentPlan([], [], [], AttentionRows([], []))

  /** The body of the `rows.forEach` callback. */
  function AddRow(plan: ExperimentPlan, row: Row): ExperimentPlan {
    match Classify(row)
    case Instructional =>
      plan.(attentionRows := plan.attentionRows.(instructional := plan.attentionRows.instructional + [row]))
    case ObviousPair =>
      var groups := plan.attentionRows.obvious;
      plan.(attentionRows := plan.attentionRows.(obvious := AddTo(groups, ObviousKey(row, |groups|), row)))
    case Training =>
      plan.(trainingRows := plan.trainingRows + [row])
    case Main =>
      plan.(methodNames := AddDistinct(plan.methodNames, MethodOf(row)),
            identities := AddTo(plan.identities, IdentityOf(row), row))
    case Dropped =>
      plan
  }

  /** `prepareExperimentPlan(rows)`. */
  function PrepareExperimentPlan(rows: seq<Row>): ExperimentPlan {
    if rows == [] then EmptyPlan
    else AddRow(PrepareExperimentPlan(rows[..|rows| - 1]), rows[|rows| - 1])
  }

  lemma PrepareSnoc(rows: seq<Row>, row: Row)
    ensures PrepareExperimentPlan(rows + [row]) == AddRow(PrepareExperimentPlan(rows), row)
  {
    assert (rows + [row])[..|rows|] == rows;
  }

  /** What one row does to each part of the plan: it is appended to the part
      of its kind and leaves every other part unchanged. */
  lemma AddRowInstructional(plan: ExperimentPlan, row: Row)
    ensures AddRow(plan, row).attentionRows.instructional
            == if IsInstructional(row) then plan.attentionRows.instructional + [row] else plan.attentionRows.instructional
  {
  }

  lemma AddRowTraining(plan: ExperimentPlan, row: Row)
    ensures AddRow(plan, row).trainingRows
            == if IsTraining(row) then plan.trainingRows + [row] else plan.trainingRows
  {
  }

  lemma AddRowGroups(plan: ExperimentPlan, row: Row)
    ensures AddRow(plan, row).attentionRows.obvious
            == if IsObviousPair(row)
               then AddTo(plan.attentionRows.obvious, ObviousKey(row, |plan.attentionRows.obvious|), row)
               else plan.attentionRows.obvious
  {
  }

  lemma AddRowIdentities(plan: ExperimentPlan, row: Row)
    ensures AddRow(plan, row).identities
            == if IsMain(row) then AddTo(plan.identities, IdentityOf(row), row) else plan.identities
  {
  }

  lemma AddRowMethods(plan: ExperimentPlan, row: Row)
    ensures AddRow(plan, row).methodNames
            == if IsMain(row) then AddDistinct(plan.methodNames, MethodOf(row)) else plan.methodNames
  {
  }

  /** The instructional and the training rows are exactly the rows of that
      kind, in table order. */
  lemma {:induction false} InstructionalAndTrainingRows(rows: seq<Row>)
    ensures PrepareExperimentPlan(rows).attentionRows.instructional == Filter(IsInstructional, rows)
    ensures PrepareExperimentPlan(rows).trainingRows == Filter(IsTraining, rows)
  {
    if rows != [] {
      var init, row := rows[..|rows| - 1], rows[|rows| - 1];
      InstructionalAndTrainingRows(init);
      assert rows == init + [row];
      PrepareSnoc(init, row);
      AddRowInstructional(PrepareExperimentPlan(init), row);
      AddRowTraining(PrepareExperimentPlan(init), row);
      FilterSnoc(IsInstructional, init, row);
      FilterSnoc(IsTraining, init, row);
    }
  }

  /** The identities are the main rows grouped by identity id, in first-seen
      order. */
  lemma {:induction false} IdentitiesAreGrouping(rows: seq<Row>)
    ensures PrepareExperimentPlan(rows).identities == GroupBy(IdentityOf, Filter(IsMain, rows))
  {
    if rows != [] {
      var init, row := rows[..|rows| - 1], rows[|rows| - 1];
      IdentitiesAreGrouping(init);
      assert rows == init + [row];
      PrepareSnoc(init, row);
      AddRowIdentities(PrepareExperimentPlan(init), row);
      var mains := Filter(IsMain, init);
      FilterSnoc(IsMain, init, row);
      if IsMain(row) {
        GroupBySnoc(IdentityOf, mains, row);
      } else {
        assert Filter(IsMain, rows) == mains;
      }
    }
  }

  /** The method names are the distinct methods of the main rows, in
      first-seen order. */
  lemma {:induction false} MethodNamesAreDistinct(rows: seq<Row>)
    ensures PrepareExperimentPlan(rows).methodNames == Distinct(Map(MethodOf, Filter(IsMain, rows)))
  {
    if rows != [] {
      var init, row := rows[..|rows| - 1], rows[|rows| - 1];
      MethodNamesAreDistinct(init);
      assert rows == init + [row];
      PrepareSnoc(init, row);
      AddRowMethods(PrepareExperimentPlan(init), row);
      var mains := Filter(IsMain, init);
      FilterSnoc(IsMain, init, row);
      if IsMain(row) {
        MapAppend(MethodOf, mains, [row]);
        DistinctSnoc(Map(MethodOf, mains), MethodOf(row));
      } else {
        assert Filter(IsMain, rows) == mains;
      }
    }
  }

  /** The identity ids of the plan: one per identity id that has a main row,
      in the order the ids first occur, none empty or repeated. */
  lemma IdentityIds(rows: seq<Row>)
    ensures var ids := Keys(PrepareExperimentPlan(rows).identities);
      && FirstSeenOrder(ids, Map(IdentityOf, Filter(IsMain, rows)))
      && (forall id :: id in ids ==> id != [])
  {
    var mains := Filter(IsMain, rows);
    var ids := Keys(PrepareExperimentPlan(rows).identities);
    IdentitiesAreGrouping(rows);
    GroupByKeys(IdentityOf, mains);
    DistinctFirstSeen(Map(IdentityOf, mains));
    forall id | id in ids ensures id != [] {
      var i := FirstIndex(Map(IdentityOf, mains), id);
      assert mains[i] in mains;
      MainRowFields(mains[i]);
    }
  }

  /** Each identity entry holds exactly the main rows with its id, in table
      order, and at least one. */
  lemma IdentityEntries(rows: seq<Row>)
    ensures var identities := PrepareExperimentPlan(rows).identities;
      forall k :: 0 <= k < |identities| ==>
        && identities[k].items == Filter(HasKey(IdentityOf, identities[k].key), Filter(IsMain, rows))
        && identities[k].items != []
  {
    IdentitiesAreGrouping(rows);
    GroupByItems(IdentityOf, Filter(IsMain, rows));
    GroupByNonEmpty(IdentityOf, Filter(IsMain, rows));
  }

  /** The method names are the distinct non-empty methods of the main rows,
      in first-seen order. */
  lemma MethodNames(rows: seq<Row>)
    ensures var names := PrepareExperimentPlan(rows).methodNames;
      && FirstSeenOrder(names, Map(MethodOf, Filter(IsMain, rows)))
      && (forall m :: m in names ==> m != [])
  {
    var mains := Filter(IsMain, rows);
    MethodNamesAreDistinct(rows);
    DistinctFirstSeen(Map(MethodOf, mains));
    forall m | m in PrepareExperimentPlan(rows).methodNames ensures m != [] {
      var i := FirstIndex(Map(MethodOf, mains), m);
      assert mains[i] in mains;
      MainRowFields(mains[i]);
    }
  }

  /** The obvious-pair groups hold exactly the obvious-pair rows. */
  lemma {:induction false} GroupedRowsAreObviousRows(rows: seq<Row>)
    ensures multiset(Flatten(Items(PrepareExperimentPlan(rows).attentionRows.obvious)))
            == multiset(Filter(IsObviousPair, rows))
  {
    if rows != [] {
      var init, row := rows[..|rows| - 1], rows[|rows| - 1];
      GroupedRowsAreObviousRows(init);
      assert rows == init + [row];
      var plan := PrepareExperimentPlan(init);
      PrepareSnoc(init, row);
      AddRowGroups(plan, row);
      if IsObviousPair(row) {
        FilterSnocHit(IsObviousPair, init, row);
        var groups := plan.attentionRows.obvious;
        AddToItems(groups, ObviousKey(row, |groups|), row);
      } else {
        FilterSnocMiss(IsObviousPair, init, row);
      }
    }
  }

  /** A row filed under `key`: an obvious-pair row under the key it asks for,
      or, when it asks for none, under a key of the form `obvious_<n>`. */
  ghost predicate FiledUnder(r: Row, key: string) {
    && IsObviousPair(r)
    && (PreferredKey(r) != [] ==> key == PreferredKey(r))
    && (PreferredKey(r) == [] ==> IsFallbackKey(key))
  }

  /** What holds of the obvious-pair groups after any prefix of the table:
      distinct keys, no empty group, every row filed under its group's key. */
  ghost predicate GroupsWellFormed(groups: seq<Bucket<Row>>) {
    && NoDup(Keys(groups))
    && (forall k :: 0 <= k < |groups| ==> groups[k].items != [])
    && (forall k, r :: 0 <= k < |groups| && r in groups[k].items ==> FiledUnder(r, groups[k].key))
  }

  lemma AddToGroupsWellFormed(groups: seq<Bucket<Row>>, row: Row)
    requires GroupsWellFormed(groups)
    requires IsObviousPair(row)
    ensures GroupsWellFormed(AddTo(groups, ObviousKey(row, |groups|), row))
  {
    var key := ObviousKey(row, |groups|);
    var groups' := AddTo(groups, key, row);
    assert FiledUnder(row, key);
    forall k, r | 0 <= k < |groups'| && r in groups'[k].items
      ensures FiledUnder(r, groups'[k].key)
    {
      if k < |groups| && groups[k].key == key {
        assert r in groups[k].items || r == row;
      }
    }
  }

  lemma {:induction false} ObviousGroups(rows: seq<Row>)
    ensures GroupsWellFormed(PrepareExperimentPlan(rows).attentionRows.obvious)
  {
    if rows != [] {
      var init, row := rows[..|rows| - 1], rows[|rows| - 1];
      ObviousGroups(init);
      assert rows == init + [row];
      var plan := PrepareExperimentPlan(init);
      PrepareSnoc(init, row);
      AddRowGroups(plan, row);
      if IsObviousPair(row) {
        AddToGroupsWellFormed(plan.attentionRows.obvious, row);
      }
    }
  }

  /** The identity lists hold exactly the main rows. */
  lemma IdentityRowsAreMainRows(rows: seq<Row>)
    ensures multiset(Flatten(Items(PrepareExperimentPlan(rows).identities)))
            == multiset(Filter(IsMain, rows))
  {
    IdentitiesAreGrouping(rows);
    GroupByFlatten(IdentityOf, Filter(IsMain, rows));
  }

  /** Every row has exactly one kind, so the five kinds split the table. */
  lemma KindsSplitRows(rows: seq<Row>)
    ensures multiset(rows)
            == multiset(Filter(IsInstructional, rows)) + multiset(Filter(IsObviousPair, rows))
             + multiset(Filter(IsTraining, rows)) + multiset(Filter(IsMain, rows))
             + multiset(Filter(IsDropped, rows))
  {
    forall row: Row
      ensures (if IsInstructional(row) then 1 else 0) + (if IsObviousPair(row) then 1 else 0)
            + (if IsTraining(row) then 1 else 0) + (if IsMain(row) then 1 else 0)
            + (if IsDropped(row) then 1 else 0) == 1
    {
      match Classify(row)
      case Instructional =>
      case ObviousPair =>
      case Training =>
      case Main =>
      case Dropped =>
    }
    FilterSplitFive(IsInstructional, IsObviousPair, IsTraining, IsMain, IsDropped, rows);
  }

  /** The partition: the four parts of the plan and the dropped rows together
      hold every row of the table exactly as often as the table does, and each
      part holds only rows of its kind. */
  lemma PartitionComplete(rows: seq<Row>)
    ensures var plan := PrepareExperimentPlan(rows);
      && multiset(rows)
         == multiset(plan.attentionRows.instructional)
          + multiset(Flatten(Items(plan.attentionRows.obvious)))
          + multiset(plan.trainingRows)
          + multiset(Flatten(Items(plan.identities)))
          + multiset(Filter(IsDropped, rows))
      && (forall r :: r in plan.attentionRows.instructional ==> IsInstructional(r))
      && (forall r :: r in Flatten(Items(plan.attentionRows.obvious)) ==> IsObviousPair(r))
      && (forall r :: r in plan.trainingRows ==> IsTraining(r))
      && (forall r :: r in Flatten(Items(plan.identities)) ==> IsMain(r))
  {
    var plan := PrepareExperimentPlan(rows);
    KindsSplitRows(rows);
    InstructionalAndTrainingRows(rows);
    GroupedRowsAreObviousRows(rows);
    IdentityRowsAreMainRows(rows);
    forall r | r in Flatten(Items(plan.attentionRows.obvious)) ensures IsObviousPair(r) {
      assert r in multiset(Filter(IsObviousPair, rows));
    }
    forall r | r in Flatten(Items(plan.identities)) ensures IsMain(r) {
      assert r in multiset(Filter(IsMain, rows));
    }
  }
}
