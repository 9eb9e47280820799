/** Grouping evidence rows into sections (reviewEvidenceSections in
    apps/browser-demo/src/agentReviewPresentation.ts). */
module EvidenceSections {
  import opened EvidenceRows
  import Sequences
  import opened StableSort

  // evidenceSectionForRow yields a topic; Advanced is the section of its own at the end.
  datatype Topic = Decision | Market | Token | Transaction | Sources | Other

  datatype SectionId = Of(topic: Topic) | Advanced

  datatype Section = Section(id: SectionId, rows: seq<Row>)

  datatype Rules = Rules(topicOf: Row -> Topic, isSummary: Row -> bool, localize: Row -> Row)

  const ORDER := [Decision, Market, Token, Transaction, Sources, Other]

  function IsDetail(rules: Rules): Row -> bool {
    (row: Row) => !rules.isSummary(row)
  }

  // Where there are decision rows, the evidence rows that repeat them are left out.
  function Grouped(rules: Rules, decisionRows: seq<Row>, evidenceRows: seq<Row>): seq<Row> {
    if decisionRows != [] then Filter(IsDetail(rules), evidenceRows) else evidenceRows
  }

  function OnTopic(rules: Rules, topic: Topic): Row -> bool {
    (row: Row) => rules.topicOf(row) == topic
  }

  function TopicRows(rules: Rules, topic: Topic, decisionRows: seq<Row>, grouped: seq<Row>): seq<Row> {
    (if topic == Decision then decisionRows else []) + Filter(OnTopic(rules, topic), grouped)
  }

  function SectionIfAny(id: SectionId, rules: Rules, rows: seq<Row>): seq<Section> {
    if rows == [] then [] else [Section(id, Map(rules.localize, rows))]
  }

  function TopicSections(rules: Rules, topics: seq<Topic>, decisionRows: seq<Row>, grouped: seq<Row>): seq<Section> {
    if topics == [] then []
    else
      SectionIfAny(Of(topics[0]), rules, TopicRows(rules, topics[0], decisionRows, grouped))
      + TopicSections(rules, topics[1..], decisionRows, grouped)
  }

  function Sections(rules: Rules, decisionRows: seq<Row>, evidenceRows: seq<Row>, advancedRows: seq<Row>): seq<Section> {
    TopicSections(rules, ORDER, decisionRows, Grouped(rules, decisionRows, evidenceRows))
    + SectionIfAny(Advanced, rules, advancedRows)
  }

  // ---- The code ------------------------------------------------------------------------------------------

  type SectionMap = map<Topic, seq<Row>>

  function InMap(sections: SectionMap, topic: Topic): seq<Row> {
    if topic in sections then sections[topic] else []
  }

  function AddToSection(sections: SectionMap, topic: Topic, row: Row): SectionMap {
    sections[topic := InMap(sections, topic) + [row]]
  }

  lemma AddedAt(sections: SectionMap, to: Topic, row: Row, topic: Topic)
    ensures InMap(AddToSection(sections, to, row), topic) == InMap(sections, topic) + if topic == to then [row] else []
  {
  }

  lemma TopicRowsOneMore(rules: Rules, topic: Topic, decisionRows: seq<Row>, grouped: seq<Row>, i: nat)
    requires i < |grouped|
    ensures TopicRows(rules, topic, decisionRows, grouped[..i + 1]) == TopicRows(rules, topic, decisionRows, grouped[..i])
      + if rules.topicOf(grouped[i]) == topic then [grouped[i]] else []
  {
    assert grouped[..i + 1] == grouped[..i] + [grouped[i]];
    assert [grouped[i]][1..] == [];
    FilterConcat(OnTopic(rules, topic), grouped[..i], [grouped[i]]);
  }

  method FillSections(rules: Rules, decisionRows: seq<Row>, grouped: seq<Row>) returns (sections: SectionMap)
    ensures forall topic :: InMap(sections, topic) == TopicRows(rules, topic, decisionRows, grouped)
  {
    sections := map[];
    for i := 0 to |decisionRows|
      invariant forall topic :: InMap(sections, topic) == if topic == Decision then decisionRows[..i] else []
    {
      var next := AddToSection(sections, Decision, decisionRows[i]);
      forall topic ensures InMap(next, topic) == if topic == Decision then decisionRows[..i + 1] else [] {
        AddedAt(sections, Decision, decisionRows[i], topic);
      }
      sections := next;
    }
    for i := 0 to |grouped|
      invariant forall topic :: InMap(sections, topic) == TopicRows(rules, topic, decisionRows, grouped[..i])
    {
      hide InMap, TopicRows, AddToSection;
      var next := AddToSection(sections, rules.topicOf(grouped[i]), grouped[i]);
      forall topic ensures InMap(next, topic) == TopicRows(rules, topic, decisionRows, grouped[..i + 1]) {
        AddedAt(sections, rules.topicOf(grouped[i]), grouped[i], topic);
        TopicRowsOneMore(rules, topic, decisionRows, grouped, i);
      }
      sections := next;
    }
    assert grouped[..|grouped|] == grouped;
  }

  lemma TopicSectionsStep(rules: Rules, topics: seq<Topic>, i: nat, decisionRows: seq<Row>, grouped: seq<Row>)
    requires i < |topics|
    ensures TopicSections(rules, topics[i..], decisionRows, grouped)
      == SectionIfAny(Of(topics[i]), rules, TopicRows(rules, topics[i], decisionRows, grouped))
         + TopicSections(rules, topics[i + 1..], decisionRows, grouped)
  {
    assert topics[i..][1..] == topics[i + 1..];
  }

  method OrderSections(rules: Rules, topics: seq<Topic>, sections: SectionMap, decisionRows: seq<Row>, grouped: seq<Row>)
    returns (ordered: seq<Section>)
    requires forall topic :: InMap(sections, topic) == TopicRows(rules, topic, decisionRows, grouped)
    ensures ordered == TopicSections(rules, topics, decisionRows, grouped)
  {
    hide TopicRows, InMap, Map;
    ordered := [];
    for i := 0 to |topics|
      invariant ordered + TopicSections(rules, topics[i..], decisionRows, grouped)
        == TopicSections(rules, topics, decisionRows, grouped)
    {
      TopicSectionsStep(rules, topics, i, decisionRows, grouped);
      hide TopicSections;
      var rows := InMap(sections, topics[i]);
      if rows != [] {
        ordered := ordered + [Section(Of(topics[i]), Map(rules.localize, rows))];
      }
    }
  }

  method ReviewEvidenceSections(rules: Rules, decisionRows: seq<Row>, evidenceRows: seq<Row>, advancedRows: seq<Row>)
    returns (ordered: seq<Section>)
    ensures ordered == Sections(rules, decisionRows, evidenceRows, advancedRows)
  {
    hide TopicRows, InMap, Filter, TopicSections, Map;
    var grouped := if decisionRows != [] then Filter(IsDetail(rules), evidenceRows) else evidenceRows;
    var sections := FillSections(rules, decisionRows, grouped);
    ordered := OrderSections(rules, ORDER, sections, decisionRows, grouped);
    if advancedRows != [] {
      ordered := ordered + [Section(Advanced, Map(rules.localize, advancedRows))];
    }
  }

  // ---- Which evidence stays -----------------------------------------------------------------------------------

  function WithoutSummaries(rules: Rules, rows: seq<Row>): seq<Row> {
    if rows == [] then []
    else (if rules.isSummary(rows[0]) then [] else [rows[0]]) + WithoutSummaries(rules, rows[1..])
  }

  // All of it when there are no decision rows, else all but the summaries.
  function Remaining(rules: Rules, decisionRows: seq<Row>, evidenceRows: seq<Row>): seq<Row> {
    if decisionRows == [] then evidenceRows else WithoutSummaries(rules, evidenceRows)
  }

  lemma GroupedRemains(rules: Rules, decisionRows: seq<Row>, evidenceRows: seq<Row>)
    ensures Grouped(rules, decisionRows, evidenceRows) == Remaining(rules, decisionRows, evidenceRows)
  {
    DetailsAreNoSummaries(rules, evidenceRows);
  }

  lemma {:induction false} DetailsAreNoSummaries(rules: Rules, rows: seq<Row>)
    ensures Filter(IsDetail(rules), rows) == WithoutSummaries(rules, rows)
  {
    if rows != [] {
      DetailsAreNoSummaries(rules, rows[1..]);
    }
  }

  // ---- Conservation ----------------------------------------------------------------------------------------

  function AllRows(sections: seq<Section>): seq<Row> {
    if sections == [] then [] else sections[0].rows + AllRows(sections[1..])
  }

  function Bag(rules: Rules, rows: seq<Row>): multiset<Row> {
    multiset(Map(rules.localize, rows))
  }

  lemma BagConcat(rules: Rules, xs: seq<Row>, ys: seq<Row>)
    ensures Bag(rules, xs + ys) == Bag(rules, xs) + Bag(rules, ys)
  {
    assert Map(rules.localize, xs + ys) == Map(rules.localize, xs) + Map(rules.localize, ys);
  }

  function BagOn(rules: Rules, topic: Topic, rows: seq<Row>): multiset<Row> {
    Bag(rules, Filter(OnTopic(rules, topic), rows))
  }

  predicate Distinct(topics: seq<Topic>) {
    forall i, j | 0 <= i < j < |topics| :: topics[i] != topics[j]
  }

  function BagOver(rules: Rules, topics: seq<Topic>, rows: seq<Row>): multiset<Row> {
    if topics == [] then multiset{} else BagOn(rules, topics[0], rows) + BagOver(rules, topics[1..], rows)
  }

  lemma Regroup<T>(a: multiset<T>, b: multiset<T>, c: multiset<T>, d: multiset<T>)
    ensures (a + b) + (c + d) == (a + c) + (b + d)
    ensures multiset{} + a == a && a + multiset{} == a
  {
  }

  function BagIf(rules: Rules, on: bool, rows: seq<Row>): multiset<Row> {
    if on then Bag(rules, rows) else multiset{}
  }

  lemma BagOnStep(rules: Rules, topic: Topic, rows: seq<Row>)
    requires rows != []
    ensures BagOn(rules, topic, rows)
      == BagIf(rules, rules.topicOf(rows[0]) == topic, [rows[0]]) + BagOn(rules, topic, rows[1..])
  {
    hide Bag;
    var rest := Filter(OnTopic(rules, topic), rows[1..]);
    if rules.topicOf(rows[0]) == topic {
      assert Filter(OnTopic(rules, topic), rows) == [rows[0]] + rest;
      BagConcat(rules, [rows[0]], rest);
    } else {
      assert Filter(OnTopic(rules, topic), rows) == rest;
    }
  }

  lemma {:induction false} BagOverStep(rules: Rules, topics: seq<Topic>, rows: seq<Row>)
    requires rows != [] && Distinct(topics)
    ensures BagOver(rules, topics, rows)
      == BagIf(rules, rules.topicOf(rows[0]) in topics, [rows[0]]) + BagOver(rules, topics, rows[1..])
  {
    if topics != [] {
      var first := rules.topicOf(rows[0]);
      DistinctRest(topics);
      BagOnStep(rules, topics[0], rows);
      BagOverStep(rules, topics[1..], rows);
      OneOrRest(rules, first, topics, [rows[0]]);
      hide BagOn, Bag, BagIf, Distinct;
      Regroup(BagIf(rules, first == topics[0], [rows[0]]), BagOn(rules, topics[0], rows[1..]),
              BagIf(rules, first in topics[1..], [rows[0]]), BagOver(rules, topics[1..], rows[1..]));
    }
  }

  lemma DistinctRest(topics: seq<Topic>)
    requires topics != [] && Distinct(topics)
    ensures Distinct(topics[1..])
  {
  }

  // A topic of a list without repetitions is its first or in the rest, not both.
  lemma OneOrRest(rules: Rules, topic: Topic, topics: seq<Topic>, rows: seq<Row>)
    requires topics != [] && Distinct(topics)
    ensures BagIf(rules, topic == topics[0], rows) + BagIf(rules, topic in topics[1..], rows) == BagIf(rules, topic in topics, rows)
  {
    hide Bag;
    assert topic in topics <==> topic == topics[0] || topic in topics[1..];
    assert topics[0] !in topics[1..];
    Regroup(Bag(rules, rows), multiset{}, multiset{}, multiset{});
  }

  // Each row falls under exactly one topic.
  lemma {:induction false} TopicsPartition(rules: Rules, rows: seq<Row>)
    ensures BagOver(rules, ORDER, rows) == Bag(rules, rows)
  {
    hide BagOver, Bag;
    if rows == [] {
      NoRows(rules, ORDER);
    } else {
      TopicsPartition(rules, rows[1..]);
      BagOverStep(rules, ORDER, rows);
      assert [rows[0]] + rows[1..] == rows;
      BagConcat(rules, [rows[0]], rows[1..]);
      InOrder(rules.topicOf(rows[0]));
    }
  }

  lemma InOrder(topic: Topic)
    ensures topic in ORDER && Distinct(ORDER)
  {
    match topic
    case Decision => assert ORDER[0] == topic;
    case Market => assert ORDER[1] == topic;
    case Token => assert ORDER[2] == topic;
    case Transaction => assert ORDER[3] == topic;
    case Sources => assert ORDER[4] == topic;
    case Other => assert ORDER[5] == topic;
  }

  lemma {:induction false} NoRows(rules: Rules, topics: seq<Topic>)
    ensures BagOver(rules, topics, []) == multiset{} && Bag(rules, []) == multiset{}
  {
    if topics != [] {
      NoRows(rules, topics[1..]);
    }
  }

  lemma {:induction false} AllRowsConcat(xs: seq<Section>, ys: seq<Section>)
    ensures AllRows(xs + ys) == AllRows(xs) + AllRows(ys)
  {
    if xs == [] {
      assert xs + ys == ys;
    } else {
      assert (xs + ys)[1..] == xs[1..] + ys;
      AllRowsConcat(xs[1..], ys);
    }
  }

  lemma SectionBag(id: SectionId, rules: Rules, rows: seq<Row>)
    ensures multiset(AllRows(SectionIfAny(id, rules, rows))) == Bag(rules, rows)
  {
    if rows != [] {
      var section := Section(id, Map(rules.localize, rows));
      assert [section][1..] == [];
      assert section.rows + [] == section.rows;
    }
  }

  function TopicBag(rules: Rules, topics: seq<Topic>, decisionRows: seq<Row>, grouped: seq<Row>): multiset<Row> {
    if topics == [] then multiset{}
    else Bag(rules, TopicRows(rules, topics[0], decisionRows, grouped)) + TopicBag(rules, topics[1..], decisionRows, grouped)
  }

  lemma {:induction false} TopicSectionsBag(rules: Rules, topics: seq<Topic>, decisionRows: seq<Row>, grouped: seq<Row>)
    ensures multiset(AllRows(TopicSections(rules, topics, decisionRows, grouped))) == TopicBag(rules, topics, decisionRows, grouped)
  {
    if topics != [] {
      hide TopicRows, Bag;
      var rows := TopicRows(rules, topics[0], decisionRows, grouped);
      TopicSectionsBag(rules, topics[1..], decisionRows, grouped);
      SectionBag(Of(topics[0]), rules, rows);
      AllRowsConcat(SectionIfAny(Of(topics[0]), rules, rows), TopicSections(rules, topics[1..], decisionRows, grouped));
    }
  }

  /** The sections hold the decision rows, the remaining evidence rows and the advanced rows, each once, whatever
      the localization does to them. */
  lemma SectionsConserveRows(rules: Rules, decisionRows: seq<Row>, evidenceRows: seq<Row>, advancedRows: seq<Row>)
    ensures multiset(AllRows(Sections(rules, decisionRows, evidenceRows, advancedRows)))
      == Bag(rules, decisionRows + Remaining(rules, decisionRows, evidenceRows) + advancedRows)
  {
    GroupedRemains(rules, decisionRows, evidenceRows);
    var grouped := Grouped(rules, decisionRows, evidenceRows);
    TopicSectionsBag(rules, ORDER, decisionRows, grouped);
    AllRowsConcat(TopicSections(rules, ORDER, decisionRows, grouped), SectionIfAny(Advanced, rules, advancedRows));
    SectionBag(Advanced, rules, advancedRows);
    OrderedBag(rules, decisionRows, grouped);
    BagConcat(rules, decisionRows + grouped, advancedRows);
    hide TopicSections, SectionIfAny, TopicBag, Bag, Grouped, Remaining;
  }

  lemma OrderedBag(rules: Rules, decisionRows: seq<Row>, grouped: seq<Row>)
    ensures TopicBag(rules, ORDER, decisionRows, grouped) == Bag(rules, decisionRows + grouped)
  {
    InOrder(Decision);
    TopicsPartition(rules, grouped);
    BagConcat(rules, decisionRows, grouped);
    hide TopicBag, Bag, BagOver;
    DecisionRowsOnce(rules, ORDER, decisionRows, grouped);
  }

  lemma TopicRowsBag(rules: Rules, topic: Topic, decisionRows: seq<Row>, grouped: seq<Row>)
    ensures Bag(rules, TopicRows(rules, topic, decisionRows, grouped))
      == BagIf(rules, topic == Decision, decisionRows) + BagOn(rules, topic, grouped)
  {
    hide Bag, Filter;
    if topic == Decision {
      BagConcat(rules, decisionRows, Filter(OnTopic(rules, topic), grouped));
    } else {
      assert TopicRows(rules, topic, decisionRows, grouped) == Filter(OnTopic(rules, topic), grouped);
    }
  }

  lemma {:induction false} DecisionRowsOnce(rules: Rules, topics: seq<Topic>, decisionRows: seq<Row>, grouped: seq<Row>)
    requires Distinct(topics)
    ensures TopicBag(rules, topics, decisionRows, grouped)
      == BagIf(rules, Decision in topics, decisionRows) + BagOver(rules, topics, grouped)
  {
    if topics != [] {
      DistinctRest(topics);
      DecisionRowsOnce(rules, topics[1..], decisionRows, grouped);
      TopicRowsBag(rules, topics[0], decisionRows, grouped);
      OneOrRest(rules, Decision, topics, decisionRows);
      hide Bag, BagOn, TopicRows, BagIf, Distinct;
      Regroup(BagIf(rules, Decision == topics[0], decisionRows), BagOn(rules, topics[0], grouped),
              BagIf(rules, Decision in topics[1..], decisionRows), BagOver(rules, topics[1..], grouped));
    }
  }

  function Rank(id: SectionId): nat {
    match id
    case Of(Decision) => 0
    case Of(Market) => 1
    case Of(Token) => 2
    case Of(Transaction) => 3
    case Of(Sources) => 4
    case Of(Other) => 5
    case Advanced => 6
  }

  // Sections in order, each with its rows, with ranks from `from` up to `below`.
  ghost predicate InOrderFrom(rules: Rules, sections: seq<Section>, decisionRows: seq<Row>, grouped: seq<Row>,
                              from: nat, below: nat) {
    && (forall i, j | 0 <= i < j < |sections| :: Rank(sections[i].id) < Rank(sections[j].id))
    && (forall s | s in sections :: s.id.Of? && from <= Rank(s.id) < below && IsTopicSection(rules, s, decisionRows, grouped))
  }

  predicate IsTopicSection(rules: Rules, s: Section, decisionRows: seq<Row>, grouped: seq<Row>)
    requires s.id.Of?
  {
    s.rows != [] && s.rows == Map(rules.localize, TopicRows(rules, s.id.topic, decisionRows, grouped))
  }

  // The rows on a topic, in their order.
  function OfTopic(rules: Rules, topic: Topic, rows: seq<Row>): seq<Row> {
    if rows == [] then []
    else (if rules.topicOf(rows[0]) == topic then [rows[0]] else []) + OfTopic(rules, topic, rows[1..])
  }

  lemma {:induction false} FilteredIsOfTopic(rules: Rules, topic: Topic, rows: seq<Row>)
    ensures Filter(OnTopic(rules, topic), rows) == OfTopic(rules, topic, rows)
  {
    if rows != [] {
      FilteredIsOfTopic(rules, topic, rows[1..]);
      FilterFirst(OnTopic(rules, topic), rows);
    }
  }

  // The section of a topic, after the localization of its rows.
  predicate ListsItsRows(rules: Rules, s: Section, decisionRows: seq<Row>, rows: seq<Row>)
    requires s.id.Of?
  {
    s.rows != []
    && s.rows == Map(rules.localize, (if s.id.topic == Decision then decisionRows else []) + OfTopic(rules, s.id.topic, rows))
  }

  predicate AreInOrder(rules: Rules, sections: seq<Section>, decisionRows: seq<Row>, rows: seq<Row>, advancedRows: seq<Row>) {
    && (forall i, j | 0 <= i < j < |sections| :: Rank(sections[i].id) < Rank(sections[j].id))
    && (forall s | s in sections ::
          if s.id == Advanced then s.rows == Map(rules.localize, advancedRows) != []
          else ListsItsRows(rules, s, decisionRows, rows))
  }

  lemma TopicSectionLists(rules: Rules, s: Section, decisionRows: seq<Row>, rows: seq<Row>)
    requires s.id.Of? && IsTopicSection(rules, s, decisionRows, rows)
    ensures ListsItsRows(rules, s, decisionRows, rows)
  {
    FilteredIsOfTopic(rules, s.id.topic, rows);
  }

  /** The sections come in a fixed order, none of them empty or twice; a topic's section lists the decision rows, if
      it is theirs, and then its evidence rows in their order. */
  lemma SectionsAreInOrder(rules: Rules, decisionRows: seq<Row>, evidenceRows: seq<Row>, advancedRows: seq<Row>)
    ensures AreInOrder(rules, Sections(rules, decisionRows, evidenceRows, advancedRows),
                       decisionRows, Remaining(rules, decisionRows, evidenceRows), advancedRows)
  {
    hide *;
    var grouped := Grouped(rules, decisionRows, evidenceRows);
    GroupedRemains(rules, decisionRows, evidenceRows);
    Sequences.Ends(ORDER);
    TopicSectionsAreInOrder(rules, 0, decisionRows, grouped);
    SectionsUnfold(rules, decisionRows, evidenceRows, advancedRows);
    AdvancedIsLast(rules, TopicSections(rules, ORDER, decisionRows, grouped), advancedRows, decisionRows, grouped);
    EachListsItsRows(rules, Sections(rules, decisionRows, evidenceRows, advancedRows), decisionRows, grouped, advancedRows);
  }

  lemma SectionsUnfold(rules: Rules, decisionRows: seq<Row>, evidenceRows: seq<Row>, advancedRows: seq<Row>)
    ensures Sections(rules, decisionRows, evidenceRows, advancedRows)
      == TopicSections(rules, ORDER, decisionRows, Grouped(rules, decisionRows, evidenceRows))
         + SectionIfAny(Advanced, rules, advancedRows)
  {
    hide TopicSections, Grouped, SectionIfAny, ORDER;
  }

  lemma EachListsItsRows(rules: Rules, all: seq<Section>, decisionRows: seq<Row>, rows: seq<Row>, advancedRows: seq<Row>)
    requires AreSections(rules, all, decisionRows, rows, advancedRows)
    ensures AreInOrder(rules, all, decisionRows, rows, advancedRows)
  {
    hide IsTopicSection, ListsItsRows, Rank, Map;
    forall s | s in all && s.id != Advanced ensures ListsItsRows(rules, s, decisionRows, rows) {
      TopicSectionLists(rules, s, decisionRows, rows);
    }
  }

  predicate AreSections(rules: Rules, all: seq<Section>, decisionRows: seq<Row>, grouped: seq<Row>, advancedRows: seq<Row>) {
    && (forall i, j | 0 <= i < j < |all| :: Rank(all[i].id) < Rank(all[j].id))
    && (forall s | s in all ::
          if s.id == Advanced then s.rows == Map(rules.localize, advancedRows) != []
          else IsTopicSection(rules, s, decisionRows, grouped))
  }

  lemma AdvancedIsLast(rules: Rules, sections: seq<Section>, advancedRows: seq<Row>, decisionRows: seq<Row>, grouped: seq<Row>)
    requires InOrderFrom(rules, sections, decisionRows, grouped, 0, 6)
    ensures AreSections(rules, sections + SectionIfAny(Advanced, rules, advancedRows), decisionRows, grouped, advancedRows)
  {
    var all := sections + SectionIfAny(Advanced, rules, advancedRows);
    assert Rank(Advanced) == 6;
    hide IsTopicSection, Rank;
    forall i, j | 0 <= i < j < |all| ensures Rank(all[i].id) < Rank(all[j].id) {
      assert all[i] == sections[i] && sections[i] in sections;
    }
  }

  lemma {:induction false} TopicSectionsAreInOrder(rules: Rules, i: nat, decisionRows: seq<Row>, grouped: seq<Row>)
    requires i <= |ORDER|
    ensures InOrderFrom(rules, TopicSections(rules, ORDER[i..], decisionRows, grouped), decisionRows, grouped, i, 6)
    decreases |ORDER| - i
  {
    hide *;
    if i < |ORDER| {
      TopicSectionsStep(rules, ORDER, i, decisionRows, grouped);
      RankOfOrder(i);
      TopicSectionsAreInOrder(rules, i + 1, decisionRows, grouped);
      OrderGrows(rules, ORDER[i], TopicSections(rules, ORDER[i + 1..], decisionRows, grouped), decisionRows, grouped, i);
    } else {
      NothingInOrder(rules, i, decisionRows, grouped);
    }
  }

  lemma NothingInOrder(rules: Rules, i: nat, decisionRows: seq<Row>, grouped: seq<Row>)
    requires i == |ORDER|
    ensures InOrderFrom(rules, TopicSections(rules, ORDER[i..], decisionRows, grouped), decisionRows, grouped, i, 6)
  {
    assert ORDER[i..] == [];
  }

  lemma OrderGrows(rules: Rules, topic: Topic, rest: seq<Section>, decisionRows: seq<Row>, grouped: seq<Row>, i: nat)
    requires Rank(Of(topic)) == i && InOrderFrom(rules, rest, decisionRows, grouped, i + 1, 6)
    ensures var rows := TopicRows(rules, topic, decisionRows, grouped);
      InOrderFrom(rules, SectionIfAny(Of(topic), rules, rows) + rest, decisionRows, grouped, i, 6)
  {
    hide *;
    var rows := TopicRows(rules, topic, decisionRows, grouped);
    if rows == [] {
      NoSection(Of(topic), rules);
      Sequences.NoneThen(rest);
      InOrderEarlier(rules, rest, decisionRows, grouped, i);
    } else {
      var first := Section(Of(topic), Map(rules.localize, rows));
      OneSection(rules, topic, decisionRows, grouped);
      OrderedCons(rules, first, rest, decisionRows, grouped);
    }
  }

  lemma NoSection(id: SectionId, rules: Rules)
    ensures SectionIfAny(id, rules, []) == []
  {
  }

  lemma OneSection(rules: Rules, topic: Topic, decisionRows: seq<Row>, grouped: seq<Row>)
    requires TopicRows(rules, topic, decisionRows, grouped) != []
    ensures var rows := TopicRows(rules, topic, decisionRows, grouped);
      var first := Section(Of(topic), Map(rules.localize, rows));
      && SectionIfAny(Of(topic), rules, rows) == [first] && IsTopicSection(rules, first, decisionRows, grouped)
      && Rank(first.id) < 6
  {
    hide TopicRows;
  }

  lemma InOrderEarlier(rules: Rules, rest: seq<Section>, decisionRows: seq<Row>, grouped: seq<Row>, i: nat)
    requires InOrderFrom(rules, rest, decisionRows, grouped, i + 1, 6)
    ensures InOrderFrom(rules, rest, decisionRows, grouped, i, 6)
  {
    hide IsTopicSection, Rank;
  }

  lemma OrderedCons(rules: Rules, first: Section, rest: seq<Section>, decisionRows: seq<Row>, grouped: seq<Row>)
    requires first.id.Of? && Rank(first.id) < 6 && IsTopicSection(rules, first, decisionRows, grouped)
    requires InOrderFrom(rules, rest, decisionRows, grouped, Rank(first.id) + 1, 6)
    ensures InOrderFrom(rules, [first] + rest, decisionRows, grouped, Rank(first.id), 6)
  {
    hide IsTopicSection, Rank;
    RanksGrow(first, rest);
    var all := [first] + rest;
    assert forall s :: s in all <==> s == first || s in rest;
  }

  lemma RanksGrow(first: Section, rest: seq<Section>)
    requires forall i, j | 0 <= i < j < |rest| :: Rank(rest[i].id) < Rank(rest[j].id)
    requires forall s | s in rest :: Rank(first.id) < Rank(s.id)
    ensures var all := [first] + rest;
      forall i, j | 0 <= i < j < |all| :: Rank(all[i].id) < Rank(all[j].id)
  {
    hide Rank;
    var all := [first] + rest;
    forall i, j | 0 <= i < j < |all| ensures Rank(all[i].id) < Rank(all[j].id) {
      assert all[j] == rest[j - 1] && rest[j - 1] in rest;
      if i > 0 {
        assert all[i] == rest[i - 1];
      }
    }
  }

  lemma RankOfOrder(i: nat)
    requires i < |ORDER|
    ensures Rank(Of(ORDER[i])) == i
  {
  }
}
