/** The recipe records the analyzer reads and the recipes it stores once ids
    are assigned. */
module Recipes {

  datatype Option<T> = None | Some(value: T)

  /** A craft time: plain seconds, or an uncertain `{min, max}` range. */
  datatype Duration = Seconds(seconds: int) | Range(min: int, max: int)

  /** One input entry; `consumable` is absent when the record does not say. */
  datatype Input = Input(name: string, quantity: int, consumable: Option<bool>)

  datatype Output = Output(name: string, quantity: int)

  /** A recipe as it arrives, in the order the station/level walk yields it.
      `duration` and `requirements` may be missing from the record. */
  datatype RecipeRecord = RecipeRecord(
    station: string,
    level: int,
    inputs: seq<Input>,
    output: Output,
    duration: Option<Duration>,
    requirements: Option<seq<string>>)

  /** A recipe once the graph has numbered it. */
  datatype Recipe = Recipe(
    id: nat,
    station: string,
    level: int,
    inputs: seq<Input>,
    output: Output,
    duration: Duration,
    requirements: seq<string>)

  /** Only an explicit `consumable: false` marks a tool that is not used up. */
  predicate IsConsumable(i: Input) {
    i.consumable != Some(false)
  }

  /** The recipe stored under `id`: a missing duration reads as 0 seconds and
      missing requirements as none. */
  function Number(r: RecipeRecord, id: nat): (rec: Recipe)
    ensures rec.id == id && rec.inputs == r.inputs && rec.output == r.output
    ensures rec.station == r.station && rec.level == r.level
    ensures r.requirements.Some? ==> rec.requirements == r.requirements.value
    ensures r.requirements.None? ==> rec.requirements == []
    ensures r.duration.Some? ==> rec.duration == r.duration.value
    ensures r.duration.None? ==> rec.duration == Seconds(0)
  {
    Recipe(id, r.station, r.level, r.inputs, r.output,
           match r.duration case Some(d) => d case None => Seconds(0),
           match r.requirements case Some(q) => q case None => [])
  }

  /** How many entries of `ins` are consumable inputs named `name`. */
  function ConsumableCount(ins: seq<Input>, name: string): nat
  {
    if ins == [] then 0
    else ConsumableCount(ins[..|ins| - 1], name)
         + (if IsConsumable(ins[|ins| - 1]) && ins[|ins| - 1].name == name then 1 else 0)
  }

  /** Some entry of `ins` is a consumable input named `name`. */
  predicate Consumes(ins: seq<Input>, name: string) {
    exists j | 0 <= j < |ins| :: IsConsumable(ins[j]) && ins[j].name == name
  }

  lemma {:induction false} ConsumableCountPositive(ins: seq<Input>, name: string)
    ensures ConsumableCount(ins, name) > 0 <==> Consumes(ins, name)
  {
    if ins != [] {
      var front := ins[..|ins| - 1];
      ConsumableCountPositive(front, name);
      if Consumes(front, name) {
        var j :| 0 <= j < |front| && IsConsumable(front[j]) && front[j].name == name;
        assert ins[j] == front[j];
      }
      if Consumes(ins, name) {
        var j :| 0 <= j < |ins| && IsConsumable(ins[j]) && ins[j].name == name;
        if j < |front| { assert front[j] == ins[j]; }
      }
    }
  }

  /** Python's `d.get(k, [])` on the id lists of the indexes. */
  function Lookup(m: map<string, seq<nat>>, k: string): seq<nat> {
    if k in m then m[k] else []
  }

  /** `m[k].append(id)` on a `defaultdict(list)`. */
  function Append(m: map<string, seq<nat>>, k: string, id: nat): map<string, seq<nat>>
  {
    m[k := Lookup(m, k) + [id]]
  }

  /** Appending under `k` extends the list of `k` by `id` and leaves every
      other list alone. */
  lemma LookupAppend(m: map<string, seq<nat>>, k: string, id: nat, name: string)
    ensures Lookup(Append(m, k, id), name) == Lookup(m, name) + (if name == k then [id] else [])
  {
  }

  /** Python's `d.get(k, 0)` on the quantity tables. */
  function Get(m: map<string, int>, k: string): int {
    if k in m then m[k] else 0
  }
}
