/** The static list of display modes served at `matrix/modes`. It reads no
    request data and no stored state. */
module Modes {
  import opened Json
  import opened Wrappers

  datatype Mode = Mode(id: int, name: string, description: string)

  const Table: seq<Mode> := [
    Mode(1, "pulse", "Pulsing rainbow colors"),
    Mode(2, "spiral", "Spiral pattern animation"),
    Mode(3, "fire", "Fire effect animation"),
    Mode(4, "wave", "Wave spectrum animation"),
    Mode(5, "cloudmist", "Cloud mist effect")
  ]

  /** One table entry as the JSON object written for it. */
  function ModeJson(m: Mode): (v: Value)
    ensures v.JObj? && v.fields.Keys == {"id", "name", "description"}
  {
    JObj(map["id" := JInt(m.id), "name" := JStr(m.name), "description" := JStr(m.description)])
  }

  /** The payload `{"modes": [...]}`, one object per table entry, in order. */
  function ModesPayload(): (v: Value)
    ensures v.JObj? && v.fields.Keys == {"modes"}
    ensures v.fields["modes"].JArr? && |v.fields["modes"].items| == |Table|
    ensures forall k | 0 <= k < |Table| :: v.fields["modes"].items[k] == ModeJson(Table[k])
  {
    JObj(map["modes" := JArr(seq(|Table|, k requires 0 <= k < |Table| => ModeJson(Table[k])))])
  }

  predicate IsModeId(id: int) {
    exists k | 0 <= k < |Table| :: Table[k].id == id
  }

  /** The name listed for `id`, if the table has an entry for it. */
  function NameOf(id: int): (r: Option<string>)
    ensures r.Some? <==> IsModeId(id)
    ensures r.Some? ==> exists k | 0 <= k < |Table| :: Table[k].id == id && Table[k].name == r.value
  {
    if 1 <= id <= 5 then Some(Table[id - 1].name) else None
  }

  /** Five entries whose ids are 1 to 5 in table order, hence distinct and
      strictly increasing. */
  lemma TableIds()
    ensures |Table| == 5
    ensures forall k | 0 <= k < |Table| :: Table[k].id == k + 1
    ensures forall a, b | 0 <= a < b < |Table| :: Table[a].id < Table[b].id
  {
  }

  /** The ids that name a mode are exactly 1 to 5. */
  lemma ModeIdRange(id: int)
    ensures IsModeId(id) <==> 1 <= id <= 5
  {
    if 1 <= id <= 5 {
      assert Table[id - 1].id == id;
    }
  }

  /** The names by id. */
  lemma ModeNames()
    ensures NameOf(1) == Some("pulse")
    ensures NameOf(2) == Some("spiral")
    ensures NameOf(3) == Some("fire")
    ensures NameOf(4) == Some("wave")
    ensures NameOf(5) == Some("cloudmist")
  {
  }
}
