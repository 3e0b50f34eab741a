# topic-template conversion, modelled in Dafny

topic-template turns a table of rows (`tags`, `phase`, `section`, `topic`,
`prompt`) into a needs-map template. It is a three-level taxonomy: phases
hold sections, and sections hold topics. This project models the conversion
pass in `convert` (src/index.ts), from the parsed rows to the returned
`Template`:

- the three name-to-identifier memo tables (`NameToIdMapper`);
- the phase palette (`colorByIndex`);
- the loop that registers phases, per-phase section lists, topics and
  tags;
- the flattening of the section lists, and the assembly of the template
  with its sorted tag list.

Modules:

- `Ids`: the fresh-identifier supply (`IdSupply`, a class with a counter)
  and the memo table (`NameToIdMapper`, a class whose `ids` map the method
  updates in place). `Resolve` is the same lookup stated on values.
- `Types`, `Palette`: the record and document shapes, and the colours.
- `Sequences`: first-seen order, which is the iteration order of a
  JavaScript `Map` or `Set` filled while scanning. Also concatenation and
  first-occurrence positions.
- `JsStrings`: the order that `Array.prototype.sort()` uses without a
  comparator (UTF-16 code units, lexicographic) and a sort for it.
- `Conversion`: one loop iteration on values (`Step`), the whole pass
  (`Run`) and its result (`Converted`). It also holds the imperative
  `Convert`, `AbsorbRecord` and `FlattenSections`. These keep the source's
  three mapper objects and its accumulating collections, and are proved to
  compute `Converted`.
- `ConversionProperties`: the invariants that hold after every row, proved
  by induction over the rows (`RunInvariants`).
- `TemplateProperties`: the returned template described directly in terms
  of the rows (phases, section lists, topics, tags, identifiers).

Two behaviours of the code are worth stating up front:

- **Section identifiers.** Section identifiers come from one table shared
  by all phases (src/index.ts:104), but duplicates are looked for only
  inside the current phase's list (src/index.ts:121). A section name used
  under two phases therefore gives two `Section` entries with the same `id`
  and different `phaseId`s. `TemplateSectionIds` states this: two entries of
  `sections` share an identifier exactly when they share a name.
- **Column names.** The header comment of src/index.ts names the tag column
  `tag` and the prompt column `extractionPrompt` (src/index.ts:17-23), but
  the code reads `rec.tags` (src/index.ts:97) and `rec.prompt`
  (src/index.ts:139). The model's `Record.tags` and `Record.prompt` are
  those fields.

A repeated topic title is one topic. It keeps the phase, section and prompt
of its first row, and later rows only add tags (src/index.ts:133-155).

## Model

| member | source | states |
|---|---|---|
| Ids.IdSupply.Generate | src/index.ts:40-42 | Each draw returns the value after the previous one, so no value is returned twice. |
| Ids.Resolve | src/index.ts:48-53 | A known name returns its identifier and leaves the table and the supply unchanged. An unknown name gets the next fresh identifier and is added. Other entries are untouched. Freshness and injectivity of the table are preserved. |
| Ids.NameToIdMapper.GetOrCreateId | src/index.ts:48-53 | The mapper's new table, the supply's new counter and the returned identifier are exactly what `Resolve` gives for the old table. The known and unknown cases are stated separately. |
| Ids.ResolveTwice | src/index.ts:48-53 | Asking again for a name just resolved returns the same identifier and changes neither the table nor the supply. |
| Ids.ResolveDistinct | src/index.ts:49-50 | Two different names asked of one fresh, injective table get different identifiers. |
| Palette.ColorByIndex | src/index.ts:57-69 | Every colour handed out is one of the eight palette entries. |
| Palette.ColorCycles | src/index.ts:57-69 | The colour of `i` is palette entry `i mod 8`, so colours repeat with period eight. |
| Sequences.FirstSeen | src/index.ts:84-87 | The insertion-ordered distinct elements: no duplicates, the same elements as the scanned sequence, and no longer than it. |
| Sequences.AppendNew | src/index.ts:151-154 | Push-unless-present adds exactly `x` to the elements, keeps the sequence duplicate-free, and appends at the end when `x` is new; an `x` already present leaves the sequence unchanged. |
| Sequences.FirstSeenOrder | src/index.ts:84-87 | Of two entries in first-seen order, the earlier one occurs first in the scanned sequence. |
| JsStrings.AtMostTotalOrder | src/index.ts:179 | The code-unit order of the default sort is reflexive, total, antisymmetric and transitive. |
| JsStrings.Utf16Injective | src/index.ts:179 | Different strings have different UTF-16 code-unit sequences. |
| JsStrings.Sort | src/index.ts:179 | The sorted tags are ordered by UTF-16 code units and are a permutation of the input. |
| JsStrings.InsertSorted | src/index.ts:179 | Inserting into a sorted sequence keeps it sorted. |
| JsStrings.SortedAllPairs | src/index.ts:179 | In the sorted result every earlier string sorts no later than every later one. |
| JsStrings.SortDistinct | src/index.ts:179 | Sorting a duplicate-free sequence keeps it duplicate-free. |
| Conversion.TopicPosition | src/index.ts:133-150 | The `topicMap` lookup: the position returned holds the topic with that identifier, and no earlier topic has it; the length means absent. |
| Conversion.AbsorbRecord | src/index.ts:96-156 | One loop iteration, with its three `getOrCreateId` calls and its phase, section, topic and tag registrations, leaves the mappers, the supply and the collections in exactly the state `Step` gives. |
| Conversion.FlattenSections | src/index.ts:158-163 | The loop over the phases returns each phase's section list in phase creation order, with a missing list read as empty, which is `Flatten`. |
| Conversion.Convert | src/index.ts:84-182 | The conversion, with its fresh mappers, its loop over the rows and the final assembly, returns `Converted(rows, ...)`. All the `TemplateProperties` lemmas are about that value. |
| ConversionProperties.RowTagsMeaning | src/index.ts:149-155 | The tags collected over the rows are exactly the non-empty `tags` cells. |
| ConversionProperties.RunInvariants | src/index.ts:96-156 | After any prefix of the rows the state satisfies all of the following. The memo tables hold exactly the names seen, with fresh, injective and mutually disjoint identifiers. The phases are one per distinct phase name, in first-seen order. Each phase's section list is that phase's distinct sections, numbered from 1. The topics are one per distinct title, built from the title's first row, with running indices. `allTags` is the distinct non-empty tags in first-seen order. |
| ConversionProperties.SectionsUnderMeaning | src/index.ts:119-130 | A name is among the sections gathered under a phase exactly when some row has that phase and that section. |
| ConversionProperties.TagsOfMeaning | src/index.ts:149-153 | A string is among a topic's gathered tags exactly when it is non-empty and some row with that topic carries it. |
| TemplateProperties.IdsDistinct | src/index.ts:90-105 | Within each of the three tables, two names that occur in the rows have equal identifiers exactly when they are equal. No phase identifier equals a section or topic identifier, and no section identifier equals a topic identifier. |
| TemplateProperties.TemplatePhases | src/index.ts:108-116 | The template has one phase per distinct phase name, in first-seen order. The k-th has that name's identifier, an empty description and `colorByIndex(k)`. |
| TemplateProperties.SectionListIs | src/index.ts:119-130 | After the pass, each phase's entry in `sectionMap` is that phase's section list as `PhaseSections` describes it. |
| TemplateProperties.PhaseSectionsDistinct | src/index.ts:119-130 | Within one phase's list, the j-th section has index j + 1 and that phase's identifier. Every listed name is a section of a row under the phase. No two entries share a name or an identifier. |
| TemplateProperties.TemplateSections | src/index.ts:158-163 | The template's sections are the phases' section lists concatenated in phase creation order. |
| TemplateProperties.TemplateSectionIds | src/index.ts:103-130 | Two entries of the template's sections have the same identifier exactly when they have the same name, even under different phases. Every section's `phaseId` is one of the template's phases. |
| TemplateProperties.TemplateTopics | src/index.ts:133-146 | The template has one topic per distinct title, in first-seen order, with indices 1, 2, ..., n. Each has its title's identifier, and the phase, section and prompt of the first row with that title. Its status is "pending", its error is null, and its tags are the title's distinct non-empty tags in first-seen order. |
| TemplateProperties.TopicTags | src/index.ts:149-153 | A topic's tags have no duplicate and no empty string. A string is among them exactly when it is non-empty and some row with that title carries it. |
| TemplateProperties.TemplateTopicsPlaced | src/index.ts:133-146 | Every topic's phase is one of the template's phases. The template lists the topic's section under that phase. |
| TemplateProperties.TemplateTags | src/index.ts:169-180 | The template's tags are sorted by code units and duplicate-free. A string is among them exactly when it is non-empty and some row carries it. Name, description and category are passed through, and relations and reasonings are empty. |
| TemplateProperties.TemplateIdsApart | src/index.ts:169-170 | No two phases and no two topics share an identifier. No phase, section or topic shares one with an entity of another kind. The template's own identifier is used by no phase, section or topic. |

## Left out

- Reading the file and decoding the CSV (src/index.ts:76-81): these are file I/O and a foreign parser, so the model starts from parsed rows. Header handling, trimming and skipping of empty lines are not modelled.
- `randomUUID` (src/index.ts:31, 40-42): a foreign random source. It is modelled as one shared counter whose draws are `Fresh(0)`, `Fresh(1)`, ... Identifiers are therefore distinct by construction, not with high probability. The template's own id (src/index.ts:170) is one more draw.
- Absent cells: `tags` and `prompt` are the empty string when missing, as `rec.tags || ""` and `rec.prompt || ""` make them. An absent `phase`, `section` or `topic` cell, which JavaScript would see as `undefined`, is not modelled: every `Record` carries strings.
- The `category` default "general" (src/index.ts:75) applies only when the caller omits the argument. `Convert` takes the category as given.
- `main` (src/index.ts:189-214) and src/cli.ts: argument parsing, process exit, JSON serialisation, file writing and console output.
- src/types.ts is mirrored as datatypes in `Types`, with the `tags` fields that src/index.ts fills in. `Null` and `Reserved` stand for the `null` and `never` element types.
- Input validation (required columns, per-row checks, statistics) is not in src/index.ts. `convertCsvStringToTemplate`, which src/cli.ts imports, is not part of this model.
- Conversion.AbsorbRecord: the section list that the source pushes onto in place (src/index.ts:120, 129) is a value here. The grown list replaces the map entry, so aliasing between `sectionMap` and `secArray` is not modelled. The same holds for the topic whose `tags` array is pushed onto (src/index.ts:150-152).
- JsStrings.Sort: only the result of `Array.prototype.sort()` under the code-unit order is modelled. The engine's sorting algorithm is not.
- JavaScript number limits: `topicIndex`, section indices and palette positions are unbounded integers. Overflow past 2^53 is not modelled.
