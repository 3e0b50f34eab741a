/**
 * The records read from the table and the shapes of the template document
 * (src/types.ts, with the `tags` fields that src/index.ts fills in).
 */
module Types {
  import opened Ids

  /** One parsed row; an absent `tags` or `prompt` cell is the empty string. */
  datatype Record = Record(tags: string, phase: string, section: string, topic: string, prompt: string)

  datatype Phase = Phase(id: Id, name: string, description: string, color: string)

  datatype Section = Section(id: Id, name: string, description: string, phaseId: Id, index: nat)

  /** The type of a topic's `error` field, which admits only `null`. */
  datatype Null = Null

  datatype Topic = Topic(
    id: Id,
    title: string,
    phaseId: Id,
    sectionId: Id,
    extractionPrompt: string,
    status: string,
    error: Null,
    index: nat,
    tags: seq<string>)

  /** Element type of `relations` and `reasonings`, which are always empty. */
  datatype Reserved = Reserved

  datatype Template = Template(
    id: Id,
    name: string,
    description: string,
    category: string,
    phases: seq<Phase>,
    sections: seq<Section>,
    topics: seq<Topic>,
    relations: seq<Reserved>,
    reasonings: seq<Reserved>,
    tags: seq<string>)
}

/** The phase colours (`colorByIndex`). */
module Palette {

  const Colors: seq<string> := [
    "#4287f5", "#3db063", "#f5a742", "#f54242",
    "#9c42f5", "#42c5f5", "#e67e22", "#7a7a7a"
  ]

  function ColorByIndex(i: nat): (c: string)
    ensures c in Colors
  {
    Colors[i % |Colors|]
  }

  /** The colour of `i` is palette entry `i mod 8`, so colours repeat every eight. */
  lemma ColorCycles(i: nat)
    ensures ColorByIndex(i) == Colors[i % 8]
    ensures ColorByIndex(i + 8) == ColorByIndex(i)
  {
    assert |Colors| == 8;
    assert (i + 8) % 8 == i % 8;
  }
}
