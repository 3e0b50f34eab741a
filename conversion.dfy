/**
 * The conversion of parsed rows into a template (`convert` in src/index.ts,
 * from the end of parsing to the returned document).
 *
 * `Step` and `Run` describe the single pass over the rows on values; the
 * method `Convert` is that pass as the source writes it, with the three
 * memo-table objects and the accumulating collections, and is proved to
 * produce `Converted`.
 */
module Conversion {
  import opened Ids
  import opened Types
  import opened Palette
  import opened Sequences
  import JsStrings

  const Pending: string := "pending"

  /**
   * Everything the pass accumulates: the three memo tables, the supply's
   * next serial, `phaseMap` and `topicMap` in insertion order, `sectionMap`
   * (phase id to that phase's section list), `allTags` in insertion order
   * and the running `topicIndex`.
   */
  datatype State = State(
    phaseIds: map<string, Id>,
    sectionIds: map<string, Id>,
    topicIds: map<string, Id>,
    nextId: nat,
    phases: seq<Phase>,
    sections: map<Id, seq<Section>>,
    topics: seq<Topic>,
    allTags: seq<string>,
    topicIndex: nat)

  const Start: State := State(map[], map[], map[], 0, [], map[], [], [], 1)

  /** `phaseMap.has(id)`. */
  predicate HasPhase(phases: seq<Phase>, id: Id)
  {
    exists k :: 0 <= k < |phases| && phases[k].id == id
  }

  /** `secArray.find(s => s.id === id)` finds something. */
  predicate HasSection(list: seq<Section>, id: Id)
  {
    exists j :: 0 <= j < |list| && list[j].id == id
  }

  /** Where the topic with identifier `id` sits in `topicMap`, or `|topics|` when absent. */
  function TopicPosition(topics: seq<Topic>, id: Id): (k: nat)
    ensures k <= |topics|
    ensures k < |topics| ==> topics[k].id == id
    ensures forall j :: 0 <= j < k ==> topics[j].id != id
  {
    if topics == [] then 0
    else if topics[0].id == id then 0
    else 1 + TopicPosition(topics[1..], id)
  }

  /** A phase not yet known is added, coloured by how many phases exist already. */
  function RegisterPhase(phases: seq<Phase>, id: Id, name: string): seq<Phase>
  {
    if HasPhase(phases, id) then phases
    else phases + [Phase(id, name, "", ColorByIndex(|phases|))]
  }

  /**
   * The phase's section list is started if missing, and a section not yet in
   * that list is appended with its 1-based position.
   */
  function RegisterSection(sections: map<Id, seq<Section>>, phaseId: Id, id: Id, name: string)
    : map<Id, seq<Section>>
  {
    var list := if phaseId in sections then sections[phaseId] else [];
    sections[phaseId := if HasSection(list, id) then list
                        else list + [Section(id, name, "", phaseId, |list| + 1)]]
  }

  /** A topic not yet known is added with the running index, which then advances. */
  function RegisterTopic(topics: seq<Topic>, topicIndex: nat, id: Id, rec: Record, phaseId: Id, sectionId: Id)
    : (seq<Topic>, nat)
  {
    if TopicPosition(topics, id) < |topics| then (topics, topicIndex)
    else (topics + [Topic(id, rec.topic, phaseId, sectionId, rec.prompt, Pending, Null, topicIndex, [])],
          topicIndex + 1)
  }

  /** The topic's tag list gains `tag` unless it already holds it. */
  function TagTopic(topics: seq<Topic>, id: Id, tag: string): seq<Topic>
  {
    var k := TopicPosition(topics, id);
    if k < |topics| then topics[k := topics[k].(tags := AppendNew(topics[k].tags, tag))]
    else topics
  }

  /** One iteration of the loop over the rows. */
  function Step(st: State, rec: Record): State
  {
    var p := Resolve(st.phaseIds, st.nextId, rec.phase);
    var s := Resolve(st.sectionIds, p.next, rec.section);
    var t := Resolve(st.topicIds, s.next, rec.topic);
    var (topics, topicIndex) := RegisterTopic(st.topics, st.topicIndex, t.id, rec, p.id, s.id);
    State(p.ids, s.ids, t.ids, t.next,
          RegisterPhase(st.phases, p.id, rec.phase),
          RegisterSection(st.sections, p.id, s.id, rec.section),
          if rec.tags != "" then TagTopic(topics, t.id, rec.tags) else topics,
          if rec.tags != "" then AppendNew(st.allTags, rec.tags) else st.allTags,
          topicIndex)
  }

  /** The state after the loop has consumed `rows`. */
  function Run(rows: seq<Record>): State
  {
    if rows == [] then Start else Step(Run(rows[..|rows| - 1]), rows[|rows| - 1])
  }

  /** Each phase's section list in turn, phases in creation order. */
  function Flatten(phases: seq<Phase>, sections: map<Id, seq<Section>>): seq<Section>
  {
    if phases == [] then []
    else
      var last := phases[|phases| - 1];
      Flatten(phases[..|phases| - 1], sections) + (if last.id in sections then sections[last.id] else [])
  }

  /** The template the conversion returns. */
  function Converted(rows: seq<Record>, name: string, description: string, category: string): Template
  {
    var st := Run(rows);
    Template(Fresh(st.nextId), name, description, category,
             st.phases, Flatten(st.phases, st.sections), st.topics, [], [],
             JsStrings.Sort(st.allTags))
  }

  /** Section lists concatenated phase by phase, in phase creation order. */
  method FlattenSections(phases: seq<Phase>, sectionMap: map<Id, seq<Section>>) returns (sections: seq<Section>)
    ensures sections == Flatten(phases, sectionMap)
  {
    sections := [];
    for k := 0 to |phases|
      invariant sections == Flatten(phases[..k], sectionMap)
    {
      var list := if phases[k].id in sectionMap then sectionMap[phases[k].id] else [];
      sections := sections + list;
      assert phases[..k + 1][..k] == phases[..k];
    }
    assert phases[..|phases|] == phases;
  }

  /**
   * The body of the loop over the rows: resolve the three names, then
   * register the phase, the section and the topic, and record the tag.
   */
  method AbsorbRecord(rec: Record, supply: IdSupply,
                      phaseMapper: NameToIdMapper, sectionMapper: NameToIdMapper, topicMapper: NameToIdMapper,
                      phases: seq<Phase>, sectionMap: map<Id, seq<Section>>, topics: seq<Topic>,
                      allTags: seq<string>, topicIndex: nat)
    returns (phases': seq<Phase>, sectionMap': map<Id, seq<Section>>, topics': seq<Topic>,
             allTags': seq<string>, topicIndex': nat)
    requires phaseMapper != sectionMapper && phaseMapper != topicMapper && sectionMapper != topicMapper
    modifies supply, phaseMapper, sectionMapper, topicMapper
    ensures State(phaseMapper.ids, sectionMapper.ids, topicMapper.ids, supply.next,
                  phases', sectionMap', topics', allTags', topicIndex')
         == Step(State(old(phaseMapper.ids), old(sectionMapper.ids), old(topicMapper.ids), old(supply.next),
                       phases, sectionMap, topics, allTags, topicIndex), rec)
  {
    ghost var st := State(phaseMapper.ids, sectionMapper.ids, topicMapper.ids, supply.next,
                          phases, sectionMap, topics, allTags, topicIndex);
    ghost var p := Resolve(st.phaseIds, st.nextId, rec.phase);
    ghost var s := Resolve(st.sectionIds, p.next, rec.section);
    ghost var t := Resolve(st.topicIds, s.next, rec.topic);

    var tag := rec.tags;
    var phaseId := phaseMapper.GetOrCreateId(rec.phase, supply);
    assert phaseId == p.id && phaseMapper.ids == p.ids && supply.next == p.next;
    var sectionId := sectionMapper.GetOrCreateId(rec.section, supply);
    assert sectionId == s.id && sectionMapper.ids == s.ids && supply.next == s.next;
    var topicId := topicMapper.GetOrCreateId(rec.topic, supply);
    assert topicId == t.id && topicMapper.ids == t.ids && supply.next == t.next;

    phases', sectionMap', topics', allTags', topicIndex' := phases, sectionMap, topics, allTags, topicIndex;

    if !HasPhase(phases', phaseId) {
      phases' := phases' + [Phase(phaseId, rec.phase, "", ColorByIndex(|phases'|))];
    }
    assert phases' == RegisterPhase(phases, p.id, rec.phase);

    // The phase's list is created empty when missing and the new section is
    // pushed onto it in place; on values, the map entry is the grown list.
    var secArray := if phaseId in sectionMap' then sectionMap'[phaseId] else [];
    if !HasSection(secArray, sectionId) {
      secArray := secArray + [Section(sectionId, rec.section, "", phaseId, |secArray| + 1)];
    }
    sectionMap' := sectionMap'[phaseId := secArray];
    assert sectionMap' == RegisterSection(sectionMap, p.id, s.id, rec.section);

    if TopicPosition(topics', topicId) == |topics'| {
      topics' := topics' + [Topic(topicId, rec.topic, phaseId, sectionId, rec.prompt, Pending, Null, topicIndex', [])];
      topicIndex' := topicIndex' + 1;
    }
    assert (topics', topicIndex') == RegisterTopic(topics, topicIndex, t.id, rec, p.id, s.id);
    ghost var registered := topics';

    if tag != "" {
      var k := TopicPosition(topics', topicId);
      if k < |topics'| && tag !in topics'[k].tags {
        topics' := topics'[k := topics'[k].(tags := topics'[k].tags + [tag])];
      }
      assert topics' == TagTopic(registered, t.id, tag);
      if tag !in allTags' {
        allTags' := allTags' + [tag];
      }
      assert allTags' == AppendNew(allTags, tag);
    }
  }

  /** One more row consumed is one more step. */
  lemma RunPrefix(rows: seq<Record>, i: nat)
    requires i < |rows|
    ensures Run(rows[..i + 1]) == Step(Run(rows[..i]), rows[i])
  {
    assert rows[..i + 1][..i] == rows[..i];
  }

  /** The conversion loop over already-parsed rows, and the final assembly. */
  method Convert(rows: seq<Record>, name: string, description: string, category: string)
    returns (template: Template)
    ensures template == Converted(rows, name, description, category)
  {
    var supply := new IdSupply();
    var phaseMapper := new NameToIdMapper();
    var sectionMapper := new NameToIdMapper();
    var topicMapper := new NameToIdMapper();
    var phases: seq<Phase> := [];
    var sectionMap: map<Id, seq<Section>> := map[];
    var topics: seq<Topic> := [];
    var allTags: seq<string> := [];
    var topicIndex := 1;

    for i := 0 to |rows|
      invariant Run(rows[..i]) == State(phaseMapper.ids, sectionMapper.ids, topicMapper.ids, supply.next,
                                        phases, sectionMap, topics, allTags, topicIndex)
    {
      RunPrefix(rows, i);
      phases, sectionMap, topics, allTags, topicIndex :=
        AbsorbRecord(rows[i], supply, phaseMapper, sectionMapper, topicMapper,
                     phases, sectionMap, topics, allTags, topicIndex);
    }

    assert rows[..|rows|] == rows;
    ghost var st := Run(rows);
    assert st.phases == phases && st.sections == sectionMap && st.topics == topics && st.allTags == allTags;
    assert st.nextId == supply.next;
    var sections := FlattenSections(phases, sectionMap);
    var templateId := supply.Generate();
    template := Template(templateId, name, description, category,
                         phases, sections, topics, [], [], JsStrings.Sort(allTags));
  }
}
