/**
 * What the single pass computes, stated without the pass: the rows'
 * columns, the invariants `Run` keeps after every row, and the template
 * described directly in terms of the rows.
 */
module ConversionProperties {
  import opened Ids
  import opened Types
  import opened Palette
  import opened Sequences
  import opened Conversion
  import JsStrings

  // ---------------------------------------------------------------------
  // The rows' columns
  // ---------------------------------------------------------------------

  function PhaseNames(rows: seq<Record>): (ns: seq<string>)
    ensures |ns| == |rows|
  {
    if rows == [] then [] else PhaseNames(rows[..|rows| - 1]) + [rows[|rows| - 1].phase]
  }

  function SectionNames(rows: seq<Record>): (ns: seq<string>)
    ensures |ns| == |rows|
  {
    if rows == [] then [] else SectionNames(rows[..|rows| - 1]) + [rows[|rows| - 1].section]
  }

  function TopicNames(rows: seq<Record>): (ns: seq<string>)
    ensures |ns| == |rows|
  {
    if rows == [] then [] else TopicNames(rows[..|rows| - 1]) + [rows[|rows| - 1].topic]
  }

  /** The section names of the rows whose phase is `phase`, in row order. */
  function SectionsUnder(rows: seq<Record>, phase: string): (ns: seq<string>)
    ensures forall x :: x in ns ==> x in SectionNames(rows)
    ensures phase !in PhaseNames(rows) ==> ns == []
  {
    if rows == [] then []
    else
      var init, last := rows[..|rows| - 1], rows[|rows| - 1];
      assert rows == init + [last];
      ColumnsSnoc(init, last);
      SectionsUnder(init, phase) + (if last.phase == phase then [last.section] else [])
  }

  /** The non-empty tags of the rows whose topic is `topic`, in row order. */
  function TagsOf(rows: seq<Record>, topic: string): (ts: seq<string>)
    ensures "" !in ts
    ensures topic !in TopicNames(rows) ==> ts == []
  {
    if rows == [] then []
    else
      var init, last := rows[..|rows| - 1], rows[|rows| - 1];
      assert rows == init + [last];
      ColumnsSnoc(init, last);
      TagsOf(init, topic) + (if last.topic == topic && last.tags != "" then [last.tags] else [])
  }

  /** The non-empty tags of all rows, in row order. */
  function RowTags(rows: seq<Record>): (ts: seq<string>)
    ensures "" !in ts
  {
    if rows == [] then [] else RowTags(rows[..|rows| - 1]) + (if rows[|rows| - 1].tags != "" then [rows[|rows| - 1].tags] else [])
  }

  lemma ColumnsSnoc(init: seq<Record>, row: Record)
    ensures PhaseNames(init + [row]) == PhaseNames(init) + [row.phase]
    ensures SectionNames(init + [row]) == SectionNames(init) + [row.section]
    ensures TopicNames(init + [row]) == TopicNames(init) + [row.topic]
    ensures (init + [row])[..|init|] == init
  {
  }

  /** The i-th entry of each column is the i-th row's name. */
  lemma {:induction false} ColumnsAt(rows: seq<Record>, i: nat)
    requires i < |rows|
    ensures PhaseNames(rows)[i] == rows[i].phase
    ensures SectionNames(rows)[i] == rows[i].section
    ensures TopicNames(rows)[i] == rows[i].topic
  {
    var init, last := rows[..|rows| - 1], rows[|rows| - 1];
    assert rows == init + [last];
    ColumnsSnoc(init, last);
    if i < |init| {
      ColumnsAt(init, i);
    }
  }

  /** One more row extends each filter by that row's entry, if it has one. */
  lemma FiltersSnoc(init: seq<Record>, row: Record, phase: string, topic: string)
    ensures SectionsUnder(init + [row], phase)
         == SectionsUnder(init, phase) + (if row.phase == phase then [row.section] else [])
    ensures TagsOf(init + [row], topic)
         == TagsOf(init, topic) + (if row.topic == topic && row.tags != "" then [row.tags] else [])
    ensures RowTags(init + [row]) == RowTags(init) + (if row.tags != "" then [row.tags] else [])
  {
    SectionsUnderSnoc(init, row, phase);
    TagsOfSnoc(init, row, topic);
    RowTagsSnoc(init, row);
  }

  lemma SectionsUnderSnoc(init: seq<Record>, row: Record, phase: string)
    ensures SectionsUnder(init + [row], phase)
         == SectionsUnder(init, phase) + (if row.phase == phase then [row.section] else [])
  {
    assert (init + [row])[..|init|] == init;
  }

  lemma TagsOfSnoc(init: seq<Record>, row: Record, topic: string)
    ensures TagsOf(init + [row], topic)
         == TagsOf(init, topic) + (if row.topic == topic && row.tags != "" then [row.tags] else [])
  {
    assert (init + [row])[..|init|] == init;
  }

  lemma RowTagsSnoc(init: seq<Record>, row: Record)
    ensures RowTags(init + [row]) == RowTags(init) + (if row.tags != "" then [row.tags] else [])
  {
    assert (init + [row])[..|init|] == init;
  }

  /** `RowTags(rows)` holds exactly the non-empty tags the rows carry. */
  lemma RowTagsMeaning(rows: seq<Record>, x: string)
    ensures x in RowTags(rows) <==> x != "" && exists i :: 0 <= i < |rows| && rows[i].tags == x
  {
    if x in RowTags(rows) {
      RowTagsFrom(rows, x);
    }
    if exists i :: 0 <= i < |rows| && rows[i].tags == x && x != "" {
      var i :| 0 <= i < |rows| && rows[i].tags == x && x != "";
      RowTagsHas(rows, i);
    }
  }

  /** Every collected tag comes from a row. */
  lemma {:induction false} RowTagsFrom(rows: seq<Record>, x: string)
    requires x in RowTags(rows)
    ensures x != "" && exists i :: 0 <= i < |rows| && rows[i].tags == x
  {
    var n := |rows| - 1;
    assert RowTags(rows) == RowTags(rows[..n]) + (if rows[n].tags != "" then [rows[n].tags] else []);
    if x in RowTags(rows[..n]) {
      RowTagsFrom(rows[..n], x);
      var i :| 0 <= i < n && rows[..n][i].tags == x;
      assert rows[i] == rows[..n][i];
    } else {
      assert rows[n].tags == x;
    }
  }


  /** Every row's non-empty tag is collected. */
  lemma {:induction false} RowTagsHas(rows: seq<Record>, i: nat)
    requires i < |rows| && rows[i].tags != ""
    ensures rows[i].tags in RowTags(rows)
  {
    var init, last := rows[..|rows| - 1], rows[|rows| - 1];
    assert rows == init + [last];
    RowTagsSnoc(init, last);
    if i < |init| {
      assert rows[i] == init[i];
      RowTagsHas(init, i);
    }
  }

  /** `SectionsUnder(rows, phase)` holds exactly the sections of the rows under `phase`. */
  lemma SectionsUnderMeaning(rows: seq<Record>, phase: string, x: string)
    ensures x in SectionsUnder(rows, phase) <==> exists i :: 0 <= i < |rows| && rows[i].phase == phase && rows[i].section == x
  {
    if x in SectionsUnder(rows, phase) {
      SectionsUnderFrom(rows, phase, x);
    }
    if exists i :: 0 <= i < |rows| && rows[i].phase == phase && rows[i].section == x {
      var i :| 0 <= i < |rows| && rows[i].phase == phase && rows[i].section == x;
      SectionsUnderHas(rows, i);
    }
  }

  /** Every section gathered under a phase comes from a row under it. */
  lemma {:induction false} SectionsUnderFrom(rows: seq<Record>, phase: string, x: string)
    requires x in SectionsUnder(rows, phase)
    ensures exists i :: 0 <= i < |rows| && rows[i].phase == phase && rows[i].section == x
  {
    var n := |rows| - 1;
    assert SectionsUnder(rows, phase)
        == SectionsUnder(rows[..n], phase) + (if rows[n].phase == phase then [rows[n].section] else []);
    if x in SectionsUnder(rows[..n], phase) {
      SectionsUnderFrom(rows[..n], phase, x);
      var i :| 0 <= i < n && rows[..n][i].phase == phase && rows[..n][i].section == x;
      assert rows[i] == rows[..n][i];
    } else {
      assert rows[n].phase == phase && rows[n].section == x;
    }
  }


  /** Every row's section is gathered under the row's phase. */
  lemma {:induction false} SectionsUnderHas(rows: seq<Record>, i: nat)
    requires i < |rows|
    ensures rows[i].section in SectionsUnder(rows, rows[i].phase)
  {
    var init, last := rows[..|rows| - 1], rows[|rows| - 1];
    assert rows == init + [last];
    SectionsUnderSnoc(init, last, rows[i].phase);
    if i < |init| {
      assert rows[i] == init[i];
      SectionsUnderHas(init, i);
    }
  }

  /** `TagsOf(rows, topic)` holds exactly the non-empty tags of the rows naming `topic`. */
  lemma TagsOfMeaning(rows: seq<Record>, topic: string, x: string)
    ensures x in TagsOf(rows, topic) <==> x != "" && exists i :: 0 <= i < |rows| && rows[i].topic == topic && rows[i].tags == x
  {
    if x in TagsOf(rows, topic) {
      TagsOfFrom(rows, topic, x);
    }
    if exists i :: 0 <= i < |rows| && rows[i].topic == topic && rows[i].tags == x && x != "" {
      var i :| 0 <= i < |rows| && rows[i].topic == topic && rows[i].tags == x && x != "";
      TagsOfHas(rows, i);
    }
  }

  /** Every tag gathered for a topic comes from a row naming it. */
  lemma {:induction false} TagsOfFrom(rows: seq<Record>, topic: string, x: string)
    requires x in TagsOf(rows, topic)
    ensures x != "" && exists i :: 0 <= i < |rows| && rows[i].topic == topic && rows[i].tags == x
  {
    var n := |rows| - 1;
    assert TagsOf(rows, topic)
        == TagsOf(rows[..n], topic) + (if rows[n].topic == topic && rows[n].tags != "" then [rows[n].tags] else []);
    if x in TagsOf(rows[..n], topic) {
      TagsOfFrom(rows[..n], topic, x);
      var i :| 0 <= i < n && rows[..n][i].topic == topic && rows[..n][i].tags == x;
      assert rows[i] == rows[..n][i];
    } else {
      assert rows[n].topic == topic && rows[n].tags == x;
    }
  }


  /** Every row's non-empty tag is gathered for the row's topic. */
  lemma {:induction false} TagsOfHas(rows: seq<Record>, i: nat)
    requires i < |rows| && rows[i].tags != ""
    ensures rows[i].tags in TagsOf(rows, rows[i].topic)
  {
    var init, last := rows[..|rows| - 1], rows[|rows| - 1];
    assert rows == init + [last];
    TagsOfSnoc(init, last, rows[i].topic);
    if i < |init| {
      assert rows[i] == init[i];
      TagsOfHas(init, i);
    }
  }



  // ---------------------------------------------------------------------
  // The memo tables
  // ---------------------------------------------------------------------

  /**
   * Every identifier in the three tables was drawn before `next`, and no
   * identifier is held twice, within a table or across the three.
   */
  ghost predicate TablesOk(phaseIds: map<string, Id>, sectionIds: map<string, Id>, topicIds: map<string, Id>, next: nat)
  {
    && Below(phaseIds, next) && Below(sectionIds, next) && Below(topicIds, next)
    && Injective(phaseIds) && Injective(sectionIds) && Injective(topicIds)
    && Disjoint(phaseIds, sectionIds) && Disjoint(phaseIds, topicIds) && Disjoint(sectionIds, topicIds)
  }

  /** The tables hold exactly the names met so far, with identifiers as `TablesOk` says. */
  ghost predicate TablesInv(rows: seq<Record>, st: State)
  {
    && (forall x :: x in st.phaseIds <==> x in PhaseNames(rows))
    && (forall x :: x in st.sectionIds <==> x in SectionNames(rows))
    && (forall x :: x in st.topicIds <==> x in TopicNames(rows))
    && TablesOk(st.phaseIds, st.sectionIds, st.topicIds, st.nextId)
  }

  /** A table only grows when it resolves a name. */
  ghost predicate Extends(small: map<string, Id>, large: map<string, Id>)
  {
    forall x :: x in small ==> x in large && large[x] == small[x]
  }

  /** Resolving with a later supply keeps a table disjoint from another that was below the earlier one. */
  lemma ResolveDisjoint(ids: map<string, Id>, next: nat, name: string, others: map<string, Id>, before: nat)
    requires Below(ids, next) && Below(others, before) && before <= next
    requires Disjoint(ids, others)
    ensures Disjoint(Resolve(ids, next, name).ids, others)
    ensures Disjoint(others, Resolve(ids, next, name).ids)
  {
    var r := Resolve(ids, next, name);
    forall a, b | a in r.ids && b in others
      ensures r.ids[a] != others[b] && others[b] != r.ids[a]
    {
      if a !in ids {
        assert r.ids[a] == Fresh(next);
      }
    }
  }

  /** One row's three lookups, in the order phase, section, topic, keep the tables apart. */
  lemma ResolveRow(phaseIds: map<string, Id>, sectionIds: map<string, Id>, topicIds: map<string, Id>, next: nat,
                   row: Record)
    requires TablesOk(phaseIds, sectionIds, topicIds, next)
    ensures var p := Resolve(phaseIds, next, row.phase);
            var s := Resolve(sectionIds, p.next, row.section);
            var t := Resolve(topicIds, s.next, row.topic);
            TablesOk(p.ids, s.ids, t.ids, t.next) && next <= t.next
  {
    var p := Resolve(phaseIds, next, row.phase);
    var s := Resolve(sectionIds, p.next, row.section);
    var t := Resolve(topicIds, s.next, row.topic);
    assert Below(sectionIds, p.next) && Below(topicIds, s.next);
    assert Below(p.ids, s.next) && Below(p.ids, t.next) && Below(s.ids, t.next);
    ResolveDisjoint(phaseIds, next, row.phase, sectionIds, next);
    ResolveDisjoint(sectionIds, p.next, row.section, p.ids, p.next);
    ResolveDisjoint(phaseIds, next, row.phase, topicIds, next);
    ResolveDisjoint(topicIds, s.next, row.topic, p.ids, p.next);
    ResolveDisjoint(topicIds, s.next, row.topic, s.ids, s.next);
  }

  /** The identifiers of one row: the three lookups in the order phase, section, topic. */
  datatype RowIds = RowIds(p: Resolution, s: Resolution, t: Resolution)

  function ResolveAll(st: State, row: Record): RowIds
  {
    var p := Resolve(st.phaseIds, st.nextId, row.phase);
    var s := Resolve(st.sectionIds, p.next, row.section);
    RowIds(p, s, Resolve(st.topicIds, s.next, row.topic))
  }

  /** `Step` piece by piece, so that the lemmas below need not look into it. */
  lemma StepParts(st: State, row: Record)
    ensures var r := ResolveAll(st, row); var st' := Step(st, row);
            var registered := RegisterTopic(st.topics, st.topicIndex, r.t.id, row, r.p.id, r.s.id);
            && st'.phaseIds == r.p.ids && st'.sectionIds == r.s.ids && st'.topicIds == r.t.ids
            && st'.nextId == r.t.next
            && st'.phases == RegisterPhase(st.phases, r.p.id, row.phase)
            && st'.sections == RegisterSection(st.sections, r.p.id, r.s.id, row.section)
            && st'.topics == (if row.tags != "" then TagTopic(registered.0, r.t.id, row.tags) else registered.0)
            && st'.topicIndex == registered.1
            && st'.allTags == (if row.tags != "" then AppendNew(st.allTags, row.tags) else st.allTags)
  {
  }

  lemma RunSnoc(init: seq<Record>, row: Record)
    ensures Run(init + [row]) == Step(Run(init), row)
  {
    assert (init + [row])[..|init|] == init;
  }

  lemma {:induction false} TablesStep(init: seq<Record>, row: Record, st0: State, st: State)
    requires TablesInv(init, st0)
    requires var r := ResolveAll(st0, row);
             st.phaseIds == r.p.ids && st.sectionIds == r.s.ids && st.topicIds == r.t.ids && st.nextId == r.t.next
    ensures TablesInv(init + [row], st)
    ensures Extends(st0.phaseIds, st.phaseIds) && Extends(st0.sectionIds, st.sectionIds)
    ensures Extends(st0.topicIds, st.topicIds) && st0.nextId <= st.nextId
  {
    ColumnsSnoc(init, row);
    ResolveRow(st0.phaseIds, st0.sectionIds, st0.topicIds, st0.nextId, row);
  }

  // ---------------------------------------------------------------------
  // What the pass has built after each row
  // ---------------------------------------------------------------------

  /** `phases` lists the names `ps` in order, with their identifiers, coloured by position. */
  ghost predicate PhaseListInv(ps: seq<string>, phaseIds: map<string, Id>, phases: seq<Phase>)
  {
    && |phases| == |ps|
    && forall k :: 0 <= k < |ps| ==>
         && ps[k] in phaseIds
         && phases[k] == Phase(phaseIds[ps[k]], ps[k], "", ColorByIndex(k))
  }

  /** Phases: one per distinct phase name, in first-seen order, coloured by position. */
  ghost predicate PhasesInv(rows: seq<Record>, phaseIds: map<string, Id>, phases: seq<Phase>)
  {
    PhaseListInv(FirstSeen(PhaseNames(rows)), phaseIds, phases)
  }

  lemma PhaseListAppend(ps: seq<string>, phaseIds: map<string, Id>, phases: seq<Phase>,
                        name: string, id: Id)
    requires PhaseListInv(ps, phaseIds, phases) && name !in phaseIds
    ensures PhaseListInv(ps + [name], phaseIds[name := id],
                         phases + [Phase(id, name, "", ColorByIndex(|phases|))])
  {
    var ps', ids', phases' := ps + [name], phaseIds[name := id], phases + [Phase(id, name, "", ColorByIndex(|phases|))];
    forall k | 0 <= k < |ps'|
      ensures ps'[k] in ids' && phases'[k] == Phase(ids'[ps'[k]], ps'[k], "", ColorByIndex(k))
    {
      if k < |ps| {
        assert ps'[k] == ps[k] && phases'[k] == phases[k];
      }
    }
  }

  lemma {:induction false} PhasesStep(init: seq<Record>, row: Record, st0: State,
                                      phaseIds: map<string, Id>, phases: seq<Phase>)
    requires TablesInv(init, st0) && PhasesInv(init, st0.phaseIds, st0.phases)
    requires var p := Resolve(st0.phaseIds, st0.nextId, row.phase);
             phaseIds == p.ids && phases == RegisterPhase(st0.phases, p.id, row.phase)
    ensures PhasesInv(init + [row], phaseIds, phases)
  {
    var p := Resolve(st0.phaseIds, st0.nextId, row.phase);
    var ps0 := FirstSeen(PhaseNames(init));
    assert FirstSeen(PhaseNames(init + [row])) == AppendNew(ps0, row.phase) by {
      ColumnsSnoc(init, row);
      FirstSeenSnoc(PhaseNames(init), row.phase);
    }
    if row.phase in st0.phaseIds {
      var k := IndexOf(ps0, row.phase);
      assert st0.phases[k].id == p.id;
    } else {
      forall k | 0 <= k < |st0.phases|
        ensures st0.phases[k].id != p.id
      {
        assert st0.phases[k].id == st0.phaseIds[ps0[k]];
      }
      PhaseListAppend(ps0, st0.phaseIds, st0.phases, row.phase, p.id);
    }
  }

  /** `list` holds the section names `ns` in order, numbered from 1, under the phase `phaseId`. */
  ghost predicate SectionListOk(ns: seq<string>, sectionIds: map<string, Id>, phaseId: Id, list: seq<Section>)
  {
    && |list| == |ns|
    && forall j :: 0 <= j < |ns| ==>
         && ns[j] in sectionIds
         && list[j] == Section(sectionIds[ns[j]], ns[j], "", phaseId, j + 1)
  }

  /**
   * Every known phase has a section list holding the distinct sections of
   * its rows in first-seen order; no other identifier has a list.
   */
  ghost predicate SectionsInv(rows: seq<Record>, st: State)
  {
    && (forall id :: id in st.sections ==> id.serial < st.nextId)
    && forall phase :: phase in st.phaseIds ==>
         && st.phaseIds[phase] in st.sections
         && SectionListOk(FirstSeen(SectionsUnder(rows, phase)), st.sectionIds, st.phaseIds[phase],
                          st.sections[st.phaseIds[phase]])
  }

  lemma SectionListExtend(ns: seq<string>, ids: map<string, Id>, ids': map<string, Id>, phaseId: Id,
                          list: seq<Section>)
    requires SectionListOk(ns, ids, phaseId, list) && Extends(ids, ids')
    ensures SectionListOk(ns, ids', phaseId, list)
  {
  }

  lemma SectionListAppend(ns: seq<string>, ids: map<string, Id>, phaseId: Id, list: seq<Section>, name: string)
    requires SectionListOk(ns, ids, phaseId, list) && name in ids
    ensures SectionListOk(ns + [name], ids, phaseId, list + [Section(ids[name], name, "", phaseId, |list| + 1)])
  {
    var ns', list' := ns + [name], list + [Section(ids[name], name, "", phaseId, |list| + 1)];
    forall j | 0 <= j < |ns'|
      ensures ns'[j] in ids && list'[j] == Section(ids[ns'[j]], ns'[j], "", phaseId, j + 1)
    {
      if j < |ns| {
        assert ns'[j] == ns[j] && list'[j] == list[j];
      }
    }
  }

  /**
   * One row's section under its own phase: the list finds the section's
   * identifier exactly when the name is listed already, and otherwise the
   * section is appended with the next position.
   */
  lemma SectionListStep(ns: seq<string>, ids: map<string, Id>, next: nat, phaseId: Id, list: seq<Section>,
                        name: string)
    requires SectionListOk(ns, ids, phaseId, list) && Below(ids, next) && Injective(ids)
    ensures var r := Resolve(ids, next, name);
            SectionListOk(AppendNew(ns, name), r.ids, phaseId,
                          if HasSection(list, r.id) then list
                          else list + [Section(r.id, name, "", phaseId, |list| + 1)])
  {
    var r := Resolve(ids, next, name);
    SectionListExtend(ns, ids, r.ids, phaseId, list);
    if name in ns {
      var j := IndexOf(ns, name);
      assert list[j].id == r.id;
    } else {
      forall j | 0 <= j < |list|
        ensures list[j].id != r.id
      {
        assert list[j].id == ids[ns[j]];
      }
      SectionListAppend(ns, r.ids, phaseId, list, name);
    }
  }

  /** The row's own phase: its section list gains the row's section if that is new to the phase. */
  lemma {:induction false} OwnSectionList(init: seq<Record>, row: Record, st0: State, st: State)
    requires var r := Resolve(st0.phaseIds, st0.nextId, row.phase);
             && Below(st0.sectionIds, r.next) && Injective(st0.sectionIds)
             && SectionListOk(FirstSeen(SectionsUnder(init, row.phase)), st0.sectionIds, r.id,
                              if r.id in st0.sections then st0.sections[r.id] else [])
    requires var r := ResolveAll(st0, row);
             && st.phaseIds == r.p.ids && st.sectionIds == r.s.ids
             && st.sections == RegisterSection(st0.sections, r.p.id, r.s.id, row.section)
    ensures row.phase in st.phaseIds && st.phaseIds[row.phase] in st.sections
    ensures SectionListOk(FirstSeen(SectionsUnder(init + [row], row.phase)), st.sectionIds,
                          st.phaseIds[row.phase], st.sections[st.phaseIds[row.phase]])
  {
    var r := ResolveAll(st0, row);
    var p := Resolve(st0.phaseIds, st0.nextId, row.phase);
    var sr := Resolve(st0.sectionIds, p.next, row.section);
    assert r.p == p && r.s == sr;
    var pid := p.id;
    var list0 := if pid in st0.sections then st0.sections[pid] else [];
    var list := if HasSection(list0, sr.id) then list0
                else list0 + [Section(sr.id, row.section, "", pid, |list0| + 1)];
    assert st.phaseIds[row.phase] == pid;
    assert st.sections[pid] == list;
    OwnListAfter(init, row, FirstSeen(SectionsUnder(init, row.phase)), st0.sectionIds, p.next, pid, list0);
  }

  /** Before the row, the row's phase has the described list, or none when the phase is new. */
  lemma OwnListBefore(init: seq<Record>, row: Record, st0: State)
    requires TablesInv(init, st0) && SectionsInv(init, st0)
    ensures var r := Resolve(st0.phaseIds, st0.nextId, row.phase);
            && Below(st0.sectionIds, r.next) && Injective(st0.sectionIds)
            && SectionListOk(FirstSeen(SectionsUnder(init, row.phase)), st0.sectionIds, r.id,
                             if r.id in st0.sections then st0.sections[r.id] else [])
  {
    if row.phase !in st0.phaseIds {
      assert Fresh(st0.nextId) !in st0.sections;
      assert row.phase !in PhaseNames(init);
    }
  }

  /** The row's phase list after registering the row's section. */
  lemma OwnListAfter(init: seq<Record>, row: Record, ns0: seq<string>, ids: map<string, Id>, next: nat,
                     pid: Id, list0: seq<Section>)
    requires ns0 == FirstSeen(SectionsUnder(init, row.phase))
    requires SectionListOk(ns0, ids, pid, list0) && Below(ids, next) && Injective(ids)
    ensures var s := Resolve(ids, next, row.section);
            SectionListOk(FirstSeen(SectionsUnder(init + [row], row.phase)), s.ids, pid,
                          if HasSection(list0, s.id) then list0
                          else list0 + [Section(s.id, row.section, "", pid, |list0| + 1)])
  {
    assert FirstSeen(SectionsUnder(init + [row], row.phase)) == AppendNew(ns0, row.section) by {
      FiltersSnoc(init, row, row.phase, row.topic);
      FirstSeenSnoc(SectionsUnder(init, row.phase), row.section);
    }
    SectionListStep(ns0, ids, next, pid, list0, row.section);
  }

  /** Registering a section under one phase leaves every other phase's list as it was. */
  lemma RegisterSectionElsewhere(sections: map<Id, seq<Section>>, phaseId: Id, id: Id, name: string, other: Id)
    requires other != phaseId
    ensures var r := RegisterSection(sections, phaseId, id, name);
            && (other in r <==> other in sections)
            && (other in sections ==> r[other] == sections[other])
  {
  }

  /** A section list of another phase than the row's is untouched and stays as described. */
  lemma OtherSectionList(init: seq<Record>, row: Record, phase: string, ids0: map<string, Id>,
                         ids: map<string, Id>, phaseId: Id, list: seq<Section>)
    requires phase != row.phase && Extends(ids0, ids)
    requires SectionListOk(FirstSeen(SectionsUnder(init, phase)), ids0, phaseId, list)
    ensures SectionListOk(FirstSeen(SectionsUnder(init + [row], phase)), ids, phaseId, list)
  {
    var ns := SectionsUnder(init, phase);
    assert SectionsUnder(init + [row], phase) == ns by {
      FiltersSnoc(init, row, phase, row.topic);
      assert ns + [] == ns;
    }
    SectionListExtend(FirstSeen(ns), ids0, ids, phaseId, list);
  }

  /** Every phase other than the row's keeps its section list and its description. */
  lemma OtherSectionLists(init: seq<Record>, row: Record, st0: State, st: State)
    requires TablesInv(init, st0) && SectionsInv(init, st0)
    requires var r := ResolveAll(st0, row);
             && st.phaseIds == r.p.ids && st.sectionIds == r.s.ids
             && st.sections == RegisterSection(st0.sections, r.p.id, r.s.id, row.section)
    ensures forall phase :: phase in st.phaseIds && phase != row.phase ==>
              && st.phaseIds[phase] in st.sections
              && SectionListOk(FirstSeen(SectionsUnder(init + [row], phase)), st.sectionIds, st.phaseIds[phase],
                               st.sections[st.phaseIds[phase]])
  {
    var r := ResolveAll(st0, row);
    assert Extends(st0.sectionIds, st.sectionIds);
    forall phase | phase in st.phaseIds && phase != row.phase
      ensures st.phaseIds[phase] in st.sections
      ensures SectionListOk(FirstSeen(SectionsUnder(init + [row], phase)), st.sectionIds, st.phaseIds[phase],
                            st.sections[st.phaseIds[phase]])
    {
      assert phase in st0.phaseIds;
      var pid := st0.phaseIds[phase];
      assert st.phaseIds[phase] == pid != r.p.id;
      assert pid in st0.sections;
      RegisterSectionElsewhere(st0.sections, r.p.id, r.s.id, row.section, pid);
      OtherSectionList(init, row, phase, st0.sectionIds, st.sectionIds, pid, st0.sections[pid]);
    }
  }

  lemma {:induction false} SectionsStep(init: seq<Record>, row: Record, st0: State, st: State)
    requires TablesInv(init, st0) && SectionsInv(init, st0)
    requires var r := ResolveAll(st0, row);
             && st.phaseIds == r.p.ids && st.sectionIds == r.s.ids && st.nextId == r.t.next
             && st.sections == RegisterSection(st0.sections, r.p.id, r.s.id, row.section)
    ensures SectionsInv(init + [row], st)
  {
    SectionKeysStep(st0, row, st);
    OwnListBefore(init, row, st0);
    OwnSectionList(init, row, st0, st);
    OtherSectionLists(init, row, st0, st);
    forall phase | phase in st.phaseIds
      ensures && st.phaseIds[phase] in st.sections
              && SectionListOk(FirstSeen(SectionsUnder(init + [row], phase)), st.sectionIds, st.phaseIds[phase],
                               st.sections[st.phaseIds[phase]])
    {
      if phase == row.phase {
      }
    }
  }

  /** Every phase identifier with a section list stays below the supply's counter. */
  lemma SectionKeysStep(st0: State, row: Record, st: State)
    requires Below(st0.phaseIds, st0.nextId)
    requires forall id :: id in st0.sections ==> id.serial < st0.nextId
    requires var r := ResolveAll(st0, row);
             && st.nextId == r.t.next
             && st.sections == RegisterSection(st0.sections, r.p.id, r.s.id, row.section)
    ensures forall id :: id in st.sections ==> id.serial < st.nextId
  {
    var r := ResolveAll(st0, row);
    assert st.sections.Keys == st0.sections.Keys + {r.p.id};
    assert r.p.id.serial < r.p.next <= r.s.next <= r.t.next;
  }

  /** The first row naming topic `title`: it supplies the topic's phase, section and prompt. */
  ghost function FirstRow(rows: seq<Record>, title: string): (r: Record)
    requires title in TopicNames(rows)
    ensures r in rows && r.topic == title
  {
    ColumnsAt(rows, IndexOf(TopicNames(rows), title));
    rows[IndexOf(TopicNames(rows), title)]
  }

  lemma FirstRowSnoc(init: seq<Record>, row: Record, title: string)
    requires title in TopicNames(init + [row])
    ensures title in TopicNames(init) ==> FirstRow(init + [row], title) == FirstRow(init, title)
    ensures title !in TopicNames(init) ==> FirstRow(init + [row], title) == row
  {
    ColumnsSnoc(init, row);
    if title in TopicNames(init) {
      IndexOfPrefix(TopicNames(init), [row.topic], title);
    } else {
      IndexOfNew(TopicNames(init), title);
    }
  }

  /**
   * `topic` is the `k`-th topic made, titled `title`, with the phase, section
   * and prompt of the row `first`, and the tag list `tags`.
   */
  ghost predicate TopicOk(topic: Topic, title: string, first: Record, phaseIds: map<string, Id>,
                          sectionIds: map<string, Id>, topicIds: map<string, Id>, k: nat, tags: seq<string>)
  {
    && title in topicIds && first.phase in phaseIds && first.section in sectionIds
    && topic == Topic(topicIds[title], title, phaseIds[first.phase], sectionIds[first.section], first.prompt,
                      Pending, Null, k + 1, tags)
  }

  /**
   * Topics: one per distinct topic title, in first-seen order, numbered from
   * 1, described by the first row naming it, and tagged with the distinct
   * non-empty tags of all rows naming it.
   */
  ghost predicate TopicsInv(rows: seq<Record>, st: State)
  {
    var ts := FirstSeen(TopicNames(rows));
    && |st.topics| == |ts| && st.topicIndex == |ts| + 1
    && forall k :: 0 <= k < |ts| ==> TopicEntry(rows, st, ts[k], k)
  }

  /** The `k`-th topic of the state is the one the rows describe for `title`. */
  ghost predicate TopicEntry(rows: seq<Record>, st: State, title: string, k: nat)
  {
    && k < |st.topics| && title in TopicNames(rows)
    && TopicOk(st.topics[k], title, FirstRow(rows, title), st.phaseIds, st.sectionIds, st.topicIds, k,
               FirstSeen(TagsOf(rows, title)))
  }

  /** A topic of another title than the row's is untouched and stays as described. */
  lemma TopicKept(init: seq<Record>, row: Record, title: string, k: nat, topic: Topic,
                  phaseIds0: map<string, Id>, sectionIds0: map<string, Id>, topicIds0: map<string, Id>,
                  phaseIds: map<string, Id>, sectionIds: map<string, Id>, topicIds: map<string, Id>)
    requires title in TopicNames(init) && title != row.topic
    requires Extends(phaseIds0, phaseIds) && Extends(sectionIds0, sectionIds) && Extends(topicIds0, topicIds)
    requires TopicOk(topic, title, FirstRow(init, title), phaseIds0, sectionIds0, topicIds0, k,
                     FirstSeen(TagsOf(init, title)))
    ensures title in TopicNames(init + [row])
    ensures TopicOk(topic, title, FirstRow(init + [row], title), phaseIds, sectionIds, topicIds, k,
                    FirstSeen(TagsOf(init + [row], title)))
  {
    ColumnsSnoc(init, row);
    FirstRowSnoc(init, row, title);
    var tags := TagsOf(init, title);
    assert TagsOf(init + [row], title) == tags by {
      FiltersSnoc(init, row, row.phase, title);
      assert tags + [] == tags;
    }
  }

  /** The row's topic, already known: it gains the row's tag if the tag is new to it. */
  lemma TopicTagged(init: seq<Record>, row: Record, k: nat, topic: Topic,
                    phaseIds0: map<string, Id>, sectionIds0: map<string, Id>, topicIds0: map<string, Id>,
                    phaseIds: map<string, Id>, sectionIds: map<string, Id>, topicIds: map<string, Id>)
    requires row.topic in TopicNames(init)
    requires Extends(phaseIds0, phaseIds) && Extends(sectionIds0, sectionIds) && Extends(topicIds0, topicIds)
    requires TopicOk(topic, row.topic, FirstRow(init, row.topic), phaseIds0, sectionIds0, topicIds0, k,
                     FirstSeen(TagsOf(init, row.topic)))
    ensures TopicOk(if row.tags != "" then topic.(tags := AppendNew(topic.tags, row.tags)) else topic,
                    row.topic, FirstRow(init + [row], row.topic), phaseIds, sectionIds, topicIds, k,
                    FirstSeen(TagsOf(init + [row], row.topic)))
  {
    FirstRowSnoc(init, row, row.topic);
    var tags := TagsOf(init, row.topic);
    FiltersSnoc(init, row, row.phase, row.topic);
    if row.tags != "" {
      FirstSeenSnoc(tags, row.tags);
    } else {
      assert TagsOf(init + [row], row.topic) == tags + [] == tags;
    }
  }

  /** The row's topic, met for the first time: it is made from this row. */
  lemma TopicCreated(init: seq<Record>, row: Record, k: nat,
                     phaseIds: map<string, Id>, sectionIds: map<string, Id>, topicIds: map<string, Id>)
    requires row.topic !in TopicNames(init)
    requires row.phase in phaseIds && row.section in sectionIds && row.topic in topicIds
    ensures row.topic in TopicNames(init + [row])
    ensures TopicOk(Topic(topicIds[row.topic], row.topic, phaseIds[row.phase], sectionIds[row.section], row.prompt,
                          Pending, Null, k + 1, if row.tags != "" then [row.tags] else []),
                    row.topic, FirstRow(init + [row], row.topic), phaseIds, sectionIds, topicIds, k,
                    FirstSeen(TagsOf(init + [row], row.topic)))
  {
    ColumnsSnoc(init, row);
    FirstRowSnoc(init, row, row.topic);
    FiltersSnoc(init, row, row.phase, row.topic);
    assert TagsOf(init, row.topic) == [];
    FirstSeenSnoc([], row.tags);
  }

  lemma TopicPositionAt(topics: seq<Topic>, id: Id, k: nat)
    requires k <= |topics|
    requires k < |topics| ==> topics[k].id == id
    requires forall j :: 0 <= j < |topics| && j != k ==> topics[j].id != id
    ensures TopicPosition(topics, id) == k
  {
  }

  /** `topics` holds, position by position, the identifiers of the titles `ts`. */
  ghost predicate TopicIdsOk(ts: seq<string>, topicIds: map<string, Id>, topics: seq<Topic>)
  {
    && |topics| == |ts|
    && forall k :: 0 <= k < |ts| ==> ts[k] in topicIds && topics[k].id == topicIds[ts[k]]
  }

  lemma TopicsInvIds(rows: seq<Record>, st: State)
    requires TopicsInv(rows, st)
    ensures TopicIdsOk(FirstSeen(TopicNames(rows)), st.topicIds, st.topics)
  {
    var ts := FirstSeen(TopicNames(rows));
    forall k | 0 <= k < |ts|
      ensures ts[k] in st.topicIds && st.topics[k].id == st.topicIds[ts[k]]
    {
      assert TopicEntry(rows, st, ts[k], k);
    }
  }

  /** With distinct titles and distinct identifiers, a title's topic is found at the title's position. */
  lemma TopicListPosition(ts: seq<string>, topicIds: map<string, Id>, topics: seq<Topic>, title: string)
    requires TopicIdsOk(ts, topicIds, topics) && Distinct(ts) && Injective(topicIds) && title in ts
    ensures TopicPosition(topics, topicIds[title]) == IndexOf(ts, title)
  {
    var k0 := IndexOf(ts, title);
    forall j | 0 <= j < |topics| && j != k0
      ensures topics[j].id != topicIds[title]
    {
      assert ts[j] != ts[k0];
    }
    TopicPositionAt(topics, topicIds[title], k0);
  }

  /** A freshly drawn identifier is not found in the list. */
  lemma TopicListAbsent(ts: seq<string>, topicIds: map<string, Id>, topics: seq<Topic>, next: nat)
    requires TopicIdsOk(ts, topicIds, topics) && Below(topicIds, next)
    ensures TopicPosition(topics, Fresh(next)) == |topics|
  {
    forall j | 0 <= j < |topics|
      ensures topics[j].id != Fresh(next)
    {
      assert topics[j].id == topicIds[ts[j]];
    }
    TopicPositionAt(topics, Fresh(next), |topics|);
  }

  /** Each topic after a row whose topic is already known: only that topic changes, in its tags. */
  lemma TopicsKnownEach(init: seq<Record>, row: Record, st0: State, st: State, k0: nat)
    requires TopicsInv(init, st0) && row.topic in TopicNames(init)
    requires k0 == IndexOf(FirstSeen(TopicNames(init)), row.topic)
    requires Extends(st0.phaseIds, st.phaseIds) && Extends(st0.sectionIds, st.sectionIds)
    requires Extends(st0.topicIds, st.topicIds)
    requires st.topics == (if row.tags != "" then st0.topics[k0 := st0.topics[k0].(tags := AppendNew(st0.topics[k0].tags, row.tags))]
                           else st0.topics)
    ensures var ts0 := FirstSeen(TopicNames(init));
            forall k :: 0 <= k < |ts0| ==> TopicEntry(init + [row], st, ts0[k], k)
  {
    var ts0 := FirstSeen(TopicNames(init));
    forall k | 0 <= k < |ts0|
      ensures TopicEntry(init + [row], st, ts0[k], k)
    {
      TopicKnownAt(init, row, st0, st, ts0, k0, k);
    }
  }

  /** One topic after a row whose topic was already known: tagged if it is that topic, else unchanged. */
  lemma TopicKnownAt(init: seq<Record>, row: Record, st0: State, st: State, ts0: seq<string>, k0: nat, k: nat)
    requires Distinct(ts0) && row.topic in ts0 && k0 == IndexOf(ts0, row.topic) && k < |ts0|
    requires TopicEntry(init, st0, ts0[k], k) && k0 < |st0.topics|
    requires Extends(st0.phaseIds, st.phaseIds) && Extends(st0.sectionIds, st.sectionIds)
    requires Extends(st0.topicIds, st.topicIds)
    requires st.topics == (if row.tags != "" then st0.topics[k0 := st0.topics[k0].(tags := AppendNew(st0.topics[k0].tags, row.tags))]
                           else st0.topics)
    ensures TopicEntry(init + [row], st, ts0[k], k)
  {
    var title := ts0[k];
    ColumnsSnoc(init, row);
    if k == k0 {
      TopicTagged(init, row, k, st0.topics[k], st0.phaseIds, st0.sectionIds, st0.topicIds,
                  st.phaseIds, st.sectionIds, st.topicIds);
    } else {
      assert st.topics[k] == st0.topics[k];
      TopicKept(init, row, title, k, st0.topics[k], st0.phaseIds, st0.sectionIds, st0.topicIds,
                st.phaseIds, st.sectionIds, st.topicIds);
    }
  }


  lemma {:induction false} TopicsStepKnown(init: seq<Record>, row: Record, st0: State, st: State)
    requires TopicsInv(init, st0) && row.topic in TopicNames(init) && row.topic in st0.topicIds
    requires TopicPosition(st0.topics, st0.topicIds[row.topic]) == IndexOf(FirstSeen(TopicNames(init)), row.topic)
    requires Extends(st0.phaseIds, st.phaseIds) && Extends(st0.sectionIds, st.sectionIds)
    requires Extends(st0.topicIds, st.topicIds)
    requires st.topics == (if row.tags != "" then TagTopic(st0.topics, st0.topicIds[row.topic], row.tags)
                           else st0.topics)
    requires st.topicIndex == st0.topicIndex
    ensures TopicsInv(init + [row], st)
  {
    var ts0 := FirstSeen(TopicNames(init));
    var k0 := IndexOf(ts0, row.topic);
    assert FirstSeen(TopicNames(init + [row])) == ts0 by {
      ColumnsSnoc(init, row);
      FirstSeenSnoc(TopicNames(init), row.topic);
    }
    assert k0 < |st0.topics|;
    assert st.topics == (if row.tags != "" then st0.topics[k0 := st0.topics[k0].(tags := AppendNew(st0.topics[k0].tags, row.tags))]
                         else st0.topics);
    TopicsKnownEach(init, row, st0, st, k0);
  }


  /** After a row whose topic is new, every earlier topic stays as it was. */
  lemma TopicsNewEach(init: seq<Record>, row: Record, st0: State, st: State)
    requires TopicsInv(init, st0) && row.topic !in TopicNames(init)
    requires Extends(st0.phaseIds, st.phaseIds) && Extends(st0.sectionIds, st.sectionIds)
    requires Extends(st0.topicIds, st.topicIds)
    requires |st0.topics| < |st.topics| && st.topics[..|st0.topics|] == st0.topics
    ensures var ts0 := FirstSeen(TopicNames(init));
            forall k :: 0 <= k < |ts0| ==> TopicEntry(init + [row], st, ts0[k], k)
  {
    var ts0 := FirstSeen(TopicNames(init));
    forall k | 0 <= k < |ts0|
      ensures TopicEntry(init + [row], st, ts0[k], k)
    {
      assert st.topics[k] == st.topics[..|st0.topics|][k] == st0.topics[k];
      TopicKept(init, row, ts0[k], k, st0.topics[k], st0.phaseIds, st0.sectionIds, st0.topicIds,
                st.phaseIds, st.sectionIds, st.topicIds);
    }
  }

  /** Tagging a topic just appended tags that topic, the last one. */
  lemma TagNewTopic(topics: seq<Topic>, made: Topic, tag: string)
    requires TopicPosition(topics, made.id) == |topics|
    ensures TagTopic(topics + [made], made.id, tag) == topics + [made.(tags := AppendNew(made.tags, tag))]
  {
    TopicPositionAt(topics + [made], made.id, |topics|);
  }

  lemma {:induction false} TopicsStepNew(init: seq<Record>, row: Record, st0: State, st: State)
    requires TopicsInv(init, st0) && row.topic !in TopicNames(init)
    requires Extends(st0.phaseIds, st.phaseIds) && Extends(st0.sectionIds, st.sectionIds)
    requires Extends(st0.topicIds, st.topicIds)
    requires row.phase in st.phaseIds && row.section in st.sectionIds && row.topic in st.topicIds
    requires st.topics == st0.topics + [Topic(st.topicIds[row.topic], row.topic, st.phaseIds[row.phase],
                                              st.sectionIds[row.section], row.prompt, Pending, Null,
                                              st0.topicIndex, if row.tags != "" then [row.tags] else [])]
    requires st.topicIndex == st0.topicIndex + 1
    ensures TopicsInv(init + [row], st)
  {
    var ts0 := FirstSeen(TopicNames(init));
    assert st.topics[..|st0.topics|] == st0.topics;
    TopicsNewEach(init, row, st0, st);
    TopicCreated(init, row, |ts0|, st.phaseIds, st.sectionIds, st.topicIds);
    TopicsAppended(init, row, st);
  }

  /** Gluing the earlier topics and the one just made into the invariant after the row. */
  lemma TopicsAppended(init: seq<Record>, row: Record, st: State)
    requires row.topic !in TopicNames(init)
    requires var n := |FirstSeen(TopicNames(init))|;
             && |st.topics| == n + 1 && st.topicIndex == n + 2
             && (forall k :: 0 <= k < n ==> TopicEntry(init + [row], st, FirstSeen(TopicNames(init))[k], k))
             && TopicEntry(init + [row], st, row.topic, n)
    ensures TopicsInv(init + [row], st)
  {
    var ts0 := FirstSeen(TopicNames(init));
    assert FirstSeen(TopicNames(init + [row])) == ts0 + [row.topic] by {
      ColumnsSnoc(init, row);
      FirstSeenSnoc(TopicNames(init), row.topic);
    }
    EntriesAppended(init + [row], st, ts0, row.topic);
  }

  /** Entries for a list of titles and for one more title make entries for the longer list. */
  lemma EntriesAppended(rows: seq<Record>, st: State, ts0: seq<string>, title: string)
    requires forall k :: 0 <= k < |ts0| ==> TopicEntry(rows, st, ts0[k], k)
    requires TopicEntry(rows, st, title, |ts0|)
    ensures forall k :: 0 <= k < |ts0 + [title]| ==> TopicEntry(rows, st, (ts0 + [title])[k], k)
  {
    var entry := (t: string, k: nat) => TopicEntry(rows, st, t, k);
    assert forall k :: 0 <= k < |ts0| ==> entry(ts0[k], k);
    EveryAppended(entry, ts0, title);
  }

  /** What the topic steps need of the memo tables. */
  lemma TopicTable(init: seq<Record>, st0: State, title: string)
    requires TablesInv(init, st0)
    ensures Injective(st0.topicIds) && Below(st0.topicIds, st0.nextId)
    ensures title in st0.topicIds <==> title in TopicNames(init)
  {
  }

  lemma {:induction false} TopicsStep(init: seq<Record>, row: Record, st0: State, st: State)
    requires TablesInv(init, st0) && TopicsInv(init, st0)
    requires var r := ResolveAll(st0, row);
             var registered := RegisterTopic(st0.topics, st0.topicIndex, r.t.id, row, r.p.id, r.s.id);
             && st.phaseIds == r.p.ids && st.sectionIds == r.s.ids && st.topicIds == r.t.ids
             && st.topics == (if row.tags != "" then TagTopic(registered.0, r.t.id, row.tags) else registered.0)
             && st.topicIndex == registered.1
    ensures TopicsInv(init + [row], st)
  {
    TopicTable(init, st0, row.topic);
    if row.topic in st0.topicIds {
      TopicsStepOld(init, row, st0, st);
    } else {
      TopicsStepFresh(init, row, st0, st);
    }
  }

  /** The topic step when the row's topic was already known. */
  lemma TopicsStepOld(init: seq<Record>, row: Record, st0: State, st: State)
    requires Injective(st0.topicIds) && TopicsInv(init, st0)
    requires row.topic in st0.topicIds && row.topic in TopicNames(init)
    requires var r := ResolveAll(st0, row);
             var registered := RegisterTopic(st0.topics, st0.topicIndex, r.t.id, row, r.p.id, r.s.id);
             && st.phaseIds == r.p.ids && st.sectionIds == r.s.ids && st.topicIds == r.t.ids
             && st.topics == (if row.tags != "" then TagTopic(registered.0, r.t.id, row.tags) else registered.0)
             && st.topicIndex == registered.1
    ensures TopicsInv(init + [row], st)
  {
    var ts0 := FirstSeen(TopicNames(init));
    assert Extends(st0.phaseIds, st.phaseIds) && Extends(st0.sectionIds, st.sectionIds);
    assert Extends(st0.topicIds, st.topicIds);
    TopicsInvIds(init, st0);
    TopicListPosition(ts0, st0.topicIds, st0.topics, row.topic);
    TopicsStepKnown(init, row, st0, st);
  }

  /** The topic step when the row's topic is new. */
  lemma TopicsStepFresh(init: seq<Record>, row: Record, st0: State, st: State)
    requires Below(st0.topicIds, st0.nextId) && TopicsInv(init, st0)
    requires row.topic !in st0.topicIds && row.topic !in TopicNames(init)
    requires var r := ResolveAll(st0, row);
             var registered := RegisterTopic(st0.topics, st0.topicIndex, r.t.id, row, r.p.id, r.s.id);
             && st.phaseIds == r.p.ids && st.sectionIds == r.s.ids && st.topicIds == r.t.ids
             && st.topics == (if row.tags != "" then TagTopic(registered.0, r.t.id, row.tags) else registered.0)
             && st.topicIndex == registered.1
    ensures TopicsInv(init + [row], st)
  {
    var r := ResolveAll(st0, row);
    var ts0 := FirstSeen(TopicNames(init));
    assert Extends(st0.phaseIds, st.phaseIds) && Extends(st0.sectionIds, st.sectionIds);
    assert Extends(st0.topicIds, st.topicIds);
    TopicsInvIds(init, st0);
    assert Below(st0.topicIds, r.s.next);
    TopicListAbsent(ts0, st0.topicIds, st0.topics, r.s.next);
    var made := Topic(r.t.id, row.topic, r.p.id, r.s.id, row.prompt, Pending, Null, st0.topicIndex, []);
    TagNewTopic(st0.topics, made, row.tags);
    TopicsStepNew(init, row, st0, st);
  }



  /** The tag list: the distinct non-empty tags of all rows, in first-seen order. */
  lemma TagsStep(init: seq<Record>, row: Record, allTags: seq<string>)
    requires allTags == FirstSeen(RowTags(init))
    ensures (if row.tags != "" then AppendNew(allTags, row.tags) else allTags) == FirstSeen(RowTags(init + [row]))
  {
    FiltersSnoc(init, row, row.phase, row.topic);
    if row.tags != "" {
      FirstSeenSnoc(RowTags(init), row.tags);
    } else {
      assert RowTags(init) + [] == RowTags(init);
    }
  }

  // ---------------------------------------------------------------------
  // The invariants of the pass
  // ---------------------------------------------------------------------

  ghost predicate Invariants(rows: seq<Record>, st: State)
  {
    && TablesInv(rows, st)
    && PhasesInv(rows, st.phaseIds, st.phases)
    && SectionsInv(rows, st)
    && TopicsInv(rows, st)
    && st.allTags == FirstSeen(RowTags(rows))
  }

  lemma {:induction false} StepInvariants(init: seq<Record>, row: Record)
    requires Invariants(init, Run(init))
    ensures Invariants(init + [row], Run(init + [row]))
  {
    var st0 := Run(init);
    var st := Step(st0, row);
    RunSnoc(init, row);
    StepParts(st0, row);
    TablesStep(init, row, st0, st);
    PhasesStep(init, row, st0, st.phaseIds, st.phases);
    SectionsStep(init, row, st0, st);
    TopicsStep(init, row, st0, st);
    TagsStep(init, row, st0.allTags);
  }

  /** After any number of rows, the state is the one the invariants describe. */
  lemma {:induction false} RunInvariants(rows: seq<Record>)
    ensures Invariants(rows, Run(rows))
  {
    if rows == [] {
      assert Run(rows) == Start;
    } else {
      var init, row := rows[..|rows| - 1], rows[|rows| - 1];
      assert rows == init + [row];
      RunInvariants(init);
      StepInvariants(init, row);
    }
  }
}

