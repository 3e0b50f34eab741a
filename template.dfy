/**
 * The template `convert` returns, described in terms of the rows alone:
 * which phases, sections, topics and tags it lists, in which order, with
 * which numbering, and how their identifiers relate.
 */
module TemplateProperties {
  import opened Ids
  import opened Types
  import opened Palette
  import opened Sequences
  import opened Conversion
  import opened ConversionProperties
  import JsStrings

  // ---------------------------------------------------------------------
  // The rows' columns
  // ---------------------------------------------------------------------

  /** A row's names are among the columns. */
  lemma RowColumns(rows: seq<Record>, r: Record)
    requires r in rows
    ensures r.phase in PhaseNames(rows) && r.section in SectionNames(rows) && r.topic in TopicNames(rows)
  {
    var i :| 0 <= i < |rows| && rows[i] == r;
    ColumnsAt(rows, i);
  }

  // ---------------------------------------------------------------------
  // The identifiers the three tables hand out
  // ---------------------------------------------------------------------

  ghost function PhaseId(rows: seq<Record>, phase: string): Id
    requires phase in PhaseNames(rows)
  {
    RunKeys(rows);
    Run(rows).phaseIds[phase]
  }

  ghost function SectionId(rows: seq<Record>, section: string): Id
    requires section in SectionNames(rows)
  {
    RunKeys(rows);
    Run(rows).sectionIds[section]
  }

  ghost function TopicId(rows: seq<Record>, topic: string): Id
    requires topic in TopicNames(rows)
  {
    RunKeys(rows);
    Run(rows).topicIds[topic]
  }

  /**
   * Different names of one kind get different identifiers, and no identifier
   * is shared between a phase, a section and a topic.
   */
  lemma IdsDistinct(rows: seq<Record>, a: string, b: string)
    ensures a in PhaseNames(rows) && b in PhaseNames(rows) ==> (PhaseId(rows, a) == PhaseId(rows, b) <==> a == b)
    ensures a in SectionNames(rows) && b in SectionNames(rows) ==> (SectionId(rows, a) == SectionId(rows, b) <==> a == b)
    ensures a in TopicNames(rows) && b in TopicNames(rows) ==> (TopicId(rows, a) == TopicId(rows, b) <==> a == b)
    ensures a in PhaseNames(rows) && b in SectionNames(rows) ==> PhaseId(rows, a) != SectionId(rows, b)
    ensures a in PhaseNames(rows) && b in TopicNames(rows) ==> PhaseId(rows, a) != TopicId(rows, b)
    ensures a in SectionNames(rows) && b in TopicNames(rows) ==> SectionId(rows, a) != TopicId(rows, b)
  {
    RunTables(rows);
  }

  /** The invariants of the finished pass, one at a time. */
  lemma RunKeys(rows: seq<Record>)
    ensures forall x :: x in PhaseNames(rows) ==> x in Run(rows).phaseIds
    ensures forall x :: x in SectionNames(rows) ==> x in Run(rows).sectionIds
    ensures forall x :: x in TopicNames(rows) ==> x in Run(rows).topicIds
  {
    RunInvariants(rows);
  }

  lemma RunTables(rows: seq<Record>)
    ensures TablesInv(rows, Run(rows))
  {
    RunInvariants(rows);
  }

  lemma RunPhases(rows: seq<Record>)
    ensures PhasesInv(rows, Run(rows).phaseIds, Run(rows).phases)
  {
    RunInvariants(rows);
  }

  lemma RunSections(rows: seq<Record>)
    ensures SectionsInv(rows, Run(rows))
  {
    RunInvariants(rows);
  }

  lemma RunTopics(rows: seq<Record>)
    ensures TopicsInv(rows, Run(rows))
  {
    RunInvariants(rows);
  }

  lemma RunTags(rows: seq<Record>)
    ensures Run(rows).allTags == FirstSeen(RowTags(rows))
  {
    RunInvariants(rows);
  }

  // ---------------------------------------------------------------------
  // Phases
  // ---------------------------------------------------------------------

  /**
   * One phase per distinct phase name, in the order the names first occur,
   * with an empty description and the colour of its position.
   */
  ghost predicate PhasesDescribed(rows: seq<Record>, phases: seq<Phase>)
  {
    var ps := FirstSeen(PhaseNames(rows));
    && |phases| == |ps|
    && forall k :: 0 <= k < |ps| ==>
         && ps[k] in PhaseNames(rows)
         && phases[k] == Phase(PhaseId(rows, ps[k]), ps[k], "", ColorByIndex(k))
  }

  lemma TemplatePhases(rows: seq<Record>, name: string, description: string, category: string)
    ensures PhasesDescribed(rows, Converted(rows, name, description, category).phases)
  {
    RunPhases(rows);
  }

  // ---------------------------------------------------------------------
  // Sections
  // ---------------------------------------------------------------------

  /**
   * The section list of `phase`: the distinct sections of its rows in the
   * order they first occur, numbered from 1 within the phase.
   */
  ghost function PhaseSections(rows: seq<Record>, phase: string): seq<Section>
    requires phase in PhaseNames(rows)
  {
    var ns := FirstSeen(SectionsUnder(rows, phase));
    seq(|ns|, j requires 0 <= j < |ns| => Section(SectionId(rows, ns[j]), ns[j], "", PhaseId(rows, phase), j + 1))
  }

  /** Every entry of `ps` is a phase named by the rows. */
  ghost predicate PhasesNamed(rows: seq<Record>, ps: seq<string>)
  {
    forall k :: 0 <= k < |ps| ==> ps[k] in PhaseNames(rows)
  }


  /** The section lists of the phases `ps`, one after the other. */
  ghost function SectionsInOrder(rows: seq<Record>, ps: seq<string>): seq<Section>
    requires PhasesNamed(rows, ps)
  {
    Concat(PhaseLists(rows, ps))
  }

  /** The section list of each phase of `ps`. */
  ghost function PhaseLists(rows: seq<Record>, ps: seq<string>): (lists: seq<seq<Section>>)
    requires PhasesNamed(rows, ps)
    ensures |lists| == |ps|
  {
    seq(|ps|, k requires 0 <= k < |ps| => PhaseSections(rows, ps[k]))
  }

  /** A list as `SectionListOk` describes it, with the finished tables' identifiers, is `PhaseSections`. */
  lemma ListIsPhaseSections(rows: seq<Record>, phase: string, sectionIds: map<string, Id>, list: seq<Section>)
    requires phase in PhaseNames(rows)
    requires forall x :: x in SectionNames(rows) ==> x in sectionIds && sectionIds[x] == SectionId(rows, x)
    requires SectionListOk(FirstSeen(SectionsUnder(rows, phase)), sectionIds, PhaseId(rows, phase), list)
    ensures list == PhaseSections(rows, phase)
  {
    var ns := FirstSeen(SectionsUnder(rows, phase));
    forall j | 0 <= j < |ns|
      ensures list[j] == PhaseSections(rows, phase)[j]
    {
      assert ns[j] in SectionNames(rows);
    }
  }

  /** The pass leaves each phase's section list as `PhaseSections` describes it. */
  lemma SectionListIs(rows: seq<Record>, phase: string)
    requires phase in PhaseNames(rows)
    ensures phase in Run(rows).phaseIds
    ensures Run(rows).phaseIds[phase] in Run(rows).sections
    ensures Run(rows).sections[Run(rows).phaseIds[phase]] == PhaseSections(rows, phase)
  {
    var st := Run(rows);
    RunKeys(rows);
    assert st.phaseIds[phase] in st.sections
        && SectionListOk(FirstSeen(SectionsUnder(rows, phase)), st.sectionIds, st.phaseIds[phase],
                         st.sections[st.phaseIds[phase]]) by {
      RunSections(rows);
    }
    ListIsPhaseSections(rows, phase, st.sectionIds, st.sections[st.phaseIds[phase]]);
  }

  /** Phase `k` of `phases` is phase `ps[k]` and `sections` holds its described list. */
  ghost predicate ListedAt(rows: seq<Record>, ps: seq<string>, phases: seq<Phase>,
                           sections: map<Id, seq<Section>>, k: nat)
    requires PhasesNamed(rows, ps)
  {
    && k < |ps| && k < |phases|
    && phases[k].id == PhaseId(rows, ps[k])
    && PhaseId(rows, ps[k]) in sections && sections[PhaseId(rows, ps[k])] == PhaseSections(rows, ps[k])
  }

  lemma FlattenListed(rows: seq<Record>, ps: seq<string>, phases: seq<Phase>, sections: map<Id, seq<Section>>)
    requires PhasesNamed(rows, ps)
    requires |phases| == |ps|
    requires forall k :: 0 <= k < |ps| ==> ListedAt(rows, ps, phases, sections, k)
    ensures Flatten(phases, sections) == SectionsInOrder(rows, ps)
  {
    var lists := PhaseLists(rows, ps);
    forall k | 0 <= k < |phases|
      ensures phases[k].id in sections && sections[phases[k].id] == lists[k]
    {
      assert ListedAt(rows, ps, phases, sections, k);
    }
    FlattenConcat(phases, sections, lists);
  }

  /** Flattening lists the phases' entries of the section map one after the other. */
  lemma {:induction false} FlattenConcat(phases: seq<Phase>, sections: map<Id, seq<Section>>,
                                         lists: seq<seq<Section>>)
    requires |phases| == |lists|
    requires forall k :: 0 <= k < |phases| ==> phases[k].id in sections && sections[phases[k].id] == lists[k]
    ensures Flatten(phases, sections) == Concat(lists)
  {
    if phases != [] {
      var n := |phases| - 1;
      FlattenConcat(phases[..n], sections, lists[..n]);
    }
  }



  /**
   * The template's sections are the phases' section lists concatenated in
   * phase creation order.
   */
  lemma TemplateSections(rows: seq<Record>, name: string, description: string, category: string)
    ensures Converted(rows, name, description, category).sections == SectionsInOrder(rows, FirstSeen(PhaseNames(rows)))
  {
    var st := Run(rows);
    var ps := FirstSeen(PhaseNames(rows));
    assert PhaseListInv(ps, st.phaseIds, st.phases) by {
      RunPhases(rows);
    }
    forall k | 0 <= k < |ps|
      ensures ListedAt(rows, ps, st.phases, st.sections, k)
    {
      SectionListIs(rows, ps[k]);
    }
    FlattenListed(rows, ps, st.phases, st.sections);
  }

  /**
   * Within a phase's list the sections have distinct names and distinct
   * identifiers, each is a section of a row under that phase, and the j-th
   * is numbered j + 1.
   */
  lemma PhaseSectionsDistinct(rows: seq<Record>, phase: string)
    requires phase in PhaseNames(rows)
    ensures var list := PhaseSections(rows, phase);
            && (forall j :: 0 <= j < |list| ==>
                  && list[j].index == j + 1 && list[j].phaseId == PhaseId(rows, phase)
                  && list[j].name in SectionsUnder(rows, phase))
            && forall i, j :: 0 <= i < j < |list| ==> list[i].name != list[j].name && list[i].id != list[j].id
  {
    var list := PhaseSections(rows, phase);
    var ns := FirstSeen(SectionsUnder(rows, phase));
    forall i, j | 0 <= i < j < |list|
      ensures list[i].name != list[j].name && list[i].id != list[j].id
    {
      IdsDistinct(rows, ns[i], ns[j]);
    }
  }

  /**
   * Every listed section carries its name's identifier from the one section
   * table, and the identifier of one of the phases listed.
   */
  lemma SectionsInOrderEntries(rows: seq<Record>, ps: seq<string>, i: nat)
    requires PhasesNamed(rows, ps)
    requires i < |SectionsInOrder(rows, ps)|
    ensures var e := SectionsInOrder(rows, ps)[i];
            && e.name in SectionNames(rows) && e.id == SectionId(rows, e.name)
            && exists k :: 0 <= k < |ps| && e.phaseId == PhaseId(rows, ps[k])
  {
    var lists := PhaseLists(rows, ps);
    ConcatIndex(lists, i);
    var k, j :| 0 <= k < |lists| && 0 <= j < |lists[k]| && Concat(lists)[i] == lists[k][j];
    PhaseSectionEntry(rows, ps[k], j);
  }


  /** An entry of one phase's section list names a section of the rows and carries its ids. */
  lemma PhaseSectionEntry(rows: seq<Record>, phase: string, j: nat)
    requires phase in PhaseNames(rows) && j < |PhaseSections(rows, phase)|
    ensures var e := PhaseSections(rows, phase)[j];
            && e.name in SectionNames(rows) && e.id == SectionId(rows, e.name) && e.phaseId == PhaseId(rows, phase)
  {
    var ns := FirstSeen(SectionsUnder(rows, phase));
    assert ns[j] in SectionNames(rows);
  }


  lemma SectionIdsByName(rows: seq<Record>, ps: seq<string>, i: nat, j: nat)
    requires PhasesNamed(rows, ps)
    requires i < |SectionsInOrder(rows, ps)| && j < |SectionsInOrder(rows, ps)|
    ensures var secs := SectionsInOrder(rows, ps);
            secs[i].id == secs[j].id <==> secs[i].name == secs[j].name
  {
    var secs := SectionsInOrder(rows, ps);
    SectionsInOrderEntries(rows, ps, i);
    SectionsInOrderEntries(rows, ps, j);
    IdsDistinct(rows, secs[i].name, secs[j].name);
  }

  /** Two sections have the same identifier exactly when they have the same name. */
  ghost predicate IdsFollowNames(secs: seq<Section>)
  {
    forall i, j :: 0 <= i < |secs| && 0 <= j < |secs| ==> (secs[i].id == secs[j].id <==> secs[i].name == secs[j].name)
  }

  /** Every section belongs to one of `phases`. */
  ghost predicate PhasesOwnSections(phases: seq<Phase>, secs: seq<Section>)
  {
    forall i :: 0 <= i < |secs| ==> exists k :: 0 <= k < |phases| && phases[k].id == secs[i].phaseId
  }

  /**
   * Sections share one identifier table across phases: two entries of the
   * template's sections have the same identifier exactly when they have the
   * same name, even under different phases; and every section's phase is
   * one of the template's phases.
   */
  lemma TemplateSectionIds(rows: seq<Record>, name: string, description: string, category: string)
    ensures IdsFollowNames(Converted(rows, name, description, category).sections)
    ensures PhasesOwnSections(Converted(rows, name, description, category).phases,
                              Converted(rows, name, description, category).sections)
  {
    var ps := FirstSeen(PhaseNames(rows));
    TemplateSections(rows, name, description, category);
    TemplatePhases(rows, name, description, category);
    SectionsByName(rows, ps);
    SectionPhasesListed(rows, ps, Converted(rows, name, description, category).phases);
  }

  lemma SectionsByName(rows: seq<Record>, ps: seq<string>)
    requires PhasesNamed(rows, ps)
    ensures IdsFollowNames(SectionsInOrder(rows, ps))
  {
    var secs := SectionsInOrder(rows, ps);
    forall i, j | 0 <= i < |secs| && 0 <= j < |secs|
      ensures secs[i].id == secs[j].id <==> secs[i].name == secs[j].name
    {
      SectionIdsByName(rows, ps, i, j);
    }
  }

  lemma SectionPhasesListed(rows: seq<Record>, ps: seq<string>, phases: seq<Phase>)
    requires ps == FirstSeen(PhaseNames(rows)) && PhasesDescribed(rows, phases)
    ensures PhasesOwnSections(phases, SectionsInOrder(rows, ps))
  {
    var secs := SectionsInOrder(rows, ps);
    forall i | 0 <= i < |secs|
      ensures exists k :: 0 <= k < |phases| && phases[k].id == secs[i].phaseId
    {
      SectionPhaseAt(rows, ps, phases, i);
    }
  }

  /** The phase of one listed section is among the template's phases. */
  lemma SectionPhaseAt(rows: seq<Record>, ps: seq<string>, phases: seq<Phase>, i: nat)
    requires ps == FirstSeen(PhaseNames(rows)) && PhasesDescribed(rows, phases)
    requires i < |SectionsInOrder(rows, ps)|
    ensures exists k :: 0 <= k < |phases| && phases[k].id == SectionsInOrder(rows, ps)[i].phaseId
  {
    var secs := SectionsInOrder(rows, ps);
    assert PhasesNamed(rows, ps);
    SectionsInOrderEntries(rows, ps, i);
    var k :| 0 <= k < |ps| && secs[i].phaseId == PhaseId(rows, ps[k]);
    assert phases[k] == Phase(PhaseId(rows, ps[k]), ps[k], "", ColorByIndex(k));
  }

  /** A phase's section list is part of the sections listed for any phases that include it. */
  lemma PhaseSectionsIncluded(rows: seq<Record>, ps: seq<string>, p: string, j: nat)
    requires PhasesNamed(rows, ps)
    requires p in ps && j < |PhaseSections(rows, p)|
    ensures PhaseSections(rows, p)[j] in SectionsInOrder(rows, ps)
  {
    var k :| 0 <= k < |ps| && ps[k] == p;
    ConcatIncludes(PhaseLists(rows, ps), k, j);
  }


  // ---------------------------------------------------------------------
  // Topics
  // ---------------------------------------------------------------------

  /**
   * One topic per distinct topic title, in the order the titles first
   * occur, numbered 1, 2, ...; phase, section and prompt come from the
   * first row naming it, the status is pending, the error null, and the
   * tags are the distinct non-empty tags of all rows naming it.
   */
  ghost predicate TopicsDescribed(rows: seq<Record>, topics: seq<Topic>)
  {
    var ts := FirstSeen(TopicNames(rows));
    && |topics| == |ts|
    && forall k :: 0 <= k < |ts| ==> TopicDescribed(rows, topics[k], ts[k], k)
  }

  /**
   * The `k`-th topic is titled `title`, takes its phase, section and prompt
   * from the first row of that title, and holds that title's tags in order
   * of first appearance.
   */
  ghost predicate TopicDescribed(rows: seq<Record>, topic: Topic, title: string, k: nat)
  {
    && title in TopicNames(rows)
    && FirstRow(rows, title).phase in PhaseNames(rows)
    && FirstRow(rows, title).section in SectionNames(rows)
    && topic == Topic(TopicId(rows, title), title,
                      PhaseId(rows, FirstRow(rows, title).phase),
                      SectionId(rows, FirstRow(rows, title).section),
                      FirstRow(rows, title).prompt, "pending", Null, k + 1,
                      FirstSeen(TagsOf(rows, title)))
  }

  lemma TemplateTopics(rows: seq<Record>, name: string, description: string, category: string)
    ensures TopicsDescribed(rows, Converted(rows, name, description, category).topics)
  {
    var st := Run(rows);
    var ts := FirstSeen(TopicNames(rows));
    RunTopics(rows);
    forall k | 0 <= k < |ts|
      ensures TopicDescribed(rows, st.topics[k], ts[k], k)
    {
      assert TopicEntry(rows, st, ts[k], k);
      TopicDescribedAt(rows, ts[k], k);
    }
  }

  /** One entry of the final state's topic list, read in terms of the rows. */
  lemma TopicDescribedAt(rows: seq<Record>, title: string, k: nat)
    requires TopicEntry(rows, Run(rows), title, k)
    ensures TopicDescribed(rows, Run(rows).topics[k], title, k)
  {
    RunKeys(rows);
    RowColumns(rows, FirstRow(rows, title));
  }


  /** A topic's tags hold no duplicate and no empty tag, and are exactly the tags its rows carry. */
  lemma TopicTags(rows: seq<Record>, name: string, description: string, category: string, k: nat, x: string)
    requires k < |Converted(rows, name, description, category).topics|
    ensures var topic := Converted(rows, name, description, category).topics[k];
            && Distinct(topic.tags) && "" !in topic.tags
            && (x in topic.tags <==> x != "" && exists i :: 0 <= i < |rows| && rows[i].topic == topic.title && rows[i].tags == x)
  {
    var ts := FirstSeen(TopicNames(rows));
    TemplateTopics(rows, name, description, category);
    TagsOfMeaning(rows, ts[k], x);
  }

  /** The topic's phase is one of `phases`, and `secs` lists the topic's section under that phase. */
  ghost predicate TopicPlaced(phases: seq<Phase>, secs: seq<Section>, topic: Topic)
  {
    && (exists i :: 0 <= i < |phases| && phases[i].id == topic.phaseId)
    && (exists i :: 0 <= i < |secs| && secs[i].id == topic.sectionId && secs[i].phaseId == topic.phaseId)
  }

  ghost predicate TopicsPlaced(phases: seq<Phase>, secs: seq<Section>, topics: seq<Topic>)
  {
    forall k :: 0 <= k < |topics| ==> TopicPlaced(phases, secs, topics[k])
  }

  /** The first row naming a topic puts its section under its phase. */
  lemma FirstRowPlaced(rows: seq<Record>, title: string)
    requires title in TopicNames(rows)
    ensures var f := FirstRow(rows, title);
            && f.phase in PhaseNames(rows) && f.section in SectionNames(rows)
            && f.section in SectionsUnder(rows, f.phase)
  {
    var f := FirstRow(rows, title);
    RowColumns(rows, f);
    var i :| 0 <= i < |rows| && rows[i] == f;
    SectionsUnderMeaning(rows, f.phase, f.section);
  }

  /** A section of a row under a listed phase is listed with that phase. */
  lemma SectionListed(rows: seq<Record>, ps: seq<string>, phase: string, section: string)
    requires PhasesNamed(rows, ps)
    requires phase in ps && section in SectionsUnder(rows, phase)
    ensures section in SectionNames(rows)
    ensures var secs := SectionsInOrder(rows, ps);
            exists i :: 0 <= i < |secs| && secs[i].id == SectionId(rows, section) && secs[i].phaseId == PhaseId(rows, phase)
  {
    var ns := FirstSeen(SectionsUnder(rows, phase));
    var j := IndexOf(ns, section);
    var e := PhaseSections(rows, phase)[j];
    assert e.id == SectionId(rows, section) && e.phaseId == PhaseId(rows, phase);
    PhaseSectionsIncluded(rows, ps, phase, j);
  }

  /** A phase named by the rows is in the described phase list. */
  lemma PhaseListed(rows: seq<Record>, phases: seq<Phase>, phase: string)
    requires PhasesDescribed(rows, phases) && phase in PhaseNames(rows)
    ensures exists i :: 0 <= i < |phases| && phases[i].id == PhaseId(rows, phase)
  {
    var ps := FirstSeen(PhaseNames(rows));
    var i := IndexOf(ps, phase);
    assert phases[i].id == PhaseId(rows, phase);
  }

  lemma TopicPlacedAt(rows: seq<Record>, ps: seq<string>, phases: seq<Phase>, topic: Topic, title: string, k: nat)
    requires ps == FirstSeen(PhaseNames(rows)) && PhasesDescribed(rows, phases)
    requires TopicDescribed(rows, topic, title, k)
    ensures TopicPlaced(phases, SectionsInOrder(rows, ps), topic)
  {
    FirstRowPlaced(rows, title);
    var f := FirstRow(rows, title);
    SectionListed(rows, ps, f.phase, f.section);
    PhaseListed(rows, phases, f.phase);
  }

  lemma TopicsPlacedIn(rows: seq<Record>, ps: seq<string>, phases: seq<Phase>, topics: seq<Topic>)
    requires ps == FirstSeen(PhaseNames(rows)) && TopicsDescribed(rows, topics) && PhasesDescribed(rows, phases)
    ensures TopicsPlaced(phases, SectionsInOrder(rows, ps), topics)
  {
    var ts := FirstSeen(TopicNames(rows));
    forall k | 0 <= k < |topics|
      ensures TopicPlaced(phases, SectionsInOrder(rows, ps), topics[k])
    {
      TopicPlacedAt(rows, ps, phases, topics[k], ts[k], k);
    }
  }


  /**
   * Every topic's phase is one of the template's phases, and the template
   * lists the topic's section under that phase.
   */
  lemma TemplateTopicsPlaced(rows: seq<Record>, name: string, description: string, category: string)
    ensures var t := Converted(rows, name, description, category);
            TopicsPlaced(t.phases, t.sections, t.topics)
  {
    var t := Converted(rows, name, description, category);
    TemplatePhases(rows, name, description, category);
    TemplateSections(rows, name, description, category);
    TemplateTopics(rows, name, description, category);
    TopicsPlacedIn(rows, FirstSeen(PhaseNames(rows)), t.phases, t.topics);
  }

  // ---------------------------------------------------------------------
  // Tags, pass-through fields and identifiers of the whole template
  // ---------------------------------------------------------------------

  /**
   * The template's tags are the distinct non-empty tags of all rows, sorted
   * by UTF-16 code units; the name, description and category are the ones
   * given, and there are no relations and no reasonings.
   */
  lemma TemplateTags(rows: seq<Record>, name: string, description: string, category: string, x: string)
    ensures var t := Converted(rows, name, description, category);
            && JsStrings.Sorted(t.tags) && Distinct(t.tags)
            && (x in t.tags <==> x != "" && exists i :: 0 <= i < |rows| && rows[i].tags == x)
            && t.name == name && t.description == description && t.category == category
            && t.relations == [] && t.reasonings == []
  {
    var tags := FirstSeen(RowTags(rows));
    RunTags(rows);
    JsStrings.SortDistinct(tags);
    var sorted := JsStrings.Sort(tags);
    RowTagsMeaning(rows, x);
    assert x in sorted <==> x in tags by {
      assert x in sorted <==> x in multiset(sorted);
      assert x in tags <==> x in multiset(tags);
    }
  }

  /** Every identifier a table hands out was drawn before the template's own. */
  lemma IdsBelowNext(rows: seq<Record>, a: string)
    ensures a in PhaseNames(rows) ==> PhaseId(rows, a).serial < Run(rows).nextId
    ensures a in SectionNames(rows) ==> SectionId(rows, a).serial < Run(rows).nextId
    ensures a in TopicNames(rows) ==> TopicId(rows, a).serial < Run(rows).nextId
  {
    RunTables(rows);
  }

  /**
   * No two phases and no two topics share an identifier; no phase, section
   * or topic shares one with an entity of another kind; and the template's
   * own identifier is used by none of them.
   */
  ghost predicate IdsApart(t: Template)
  {
    && (forall i, j :: 0 <= i < j < |t.phases| ==> t.phases[i].id != t.phases[j].id)
    && (forall i, j :: 0 <= i < j < |t.topics| ==> t.topics[i].id != t.topics[j].id)
    && (forall i, j :: 0 <= i < |t.phases| && 0 <= j < |t.sections| ==> t.phases[i].id != t.sections[j].id)
    && (forall i, j :: 0 <= i < |t.phases| && 0 <= j < |t.topics| ==> t.phases[i].id != t.topics[j].id)
    && (forall i, j :: 0 <= i < |t.sections| && 0 <= j < |t.topics| ==> t.sections[i].id != t.topics[j].id)
    && (forall i :: 0 <= i < |t.phases| ==> t.phases[i].id != t.id)
    && (forall i :: 0 <= i < |t.sections| ==> t.sections[i].id != t.id)
    && (forall i :: 0 <= i < |t.topics| ==> t.topics[i].id != t.id)
  }

  lemma IdsApartFrom(rows: seq<Record>, t: Template)
    requires PhasesDescribed(rows, t.phases) && TopicsDescribed(rows, t.topics)
    requires t.sections == SectionsInOrder(rows, FirstSeen(PhaseNames(rows)))
    requires t.id == Fresh(Run(rows).nextId)
    ensures IdsApart(t)
  {
    var ps, ts := FirstSeen(PhaseNames(rows)), FirstSeen(TopicNames(rows));
    forall i, j | 0 <= i < j < |t.phases|
      ensures t.phases[i].id != t.phases[j].id
    {
      IdsDistinct(rows, ps[i], ps[j]);
    }
    forall i, j | 0 <= i < j < |t.topics|
      ensures t.topics[i].id != t.topics[j].id
    {
      IdsDistinct(rows, ts[i], ts[j]);
    }
    forall i, j | 0 <= i < |t.phases| && 0 <= j < |t.sections|
      ensures t.phases[i].id != t.sections[j].id
    {
      SectionsInOrderEntries(rows, ps, j);
      IdsDistinct(rows, ps[i], t.sections[j].name);
    }
    forall i, j | 0 <= i < |t.phases| && 0 <= j < |t.topics|
      ensures t.phases[i].id != t.topics[j].id
    {
      IdsDistinct(rows, ps[i], ts[j]);
    }
    forall i, j | 0 <= i < |t.sections| && 0 <= j < |t.topics|
      ensures t.sections[i].id != t.topics[j].id
    {
      SectionsInOrderEntries(rows, ps, i);
      IdsDistinct(rows, t.sections[i].name, ts[j]);
    }
    forall i | 0 <= i < |t.phases|
      ensures t.phases[i].id != t.id
    {
      IdsBelowNext(rows, ps[i]);
    }
    forall i | 0 <= i < |t.sections|
      ensures t.sections[i].id != t.id
    {
      SectionsInOrderEntries(rows, ps, i);
      IdsBelowNext(rows, t.sections[i].name);
    }
    forall i | 0 <= i < |t.topics|
      ensures t.topics[i].id != t.id
    {
      IdsBelowNext(rows, ts[i]);
    }
  }

  lemma TemplateIdsApart(rows: seq<Record>, name: string, description: string, category: string)
    ensures IdsApart(Converted(rows, name, description, category))
  {
    TemplatePhases(rows, name, description, category);
    TemplateSections(rows, name, description, category);
    TemplateTopics(rows, name, description, category);
    IdsApartFrom(rows, Converted(rows, name, description, category));
  }
}

