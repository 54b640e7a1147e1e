# Crafting cycles: a verified model

This project models the crafting-cycle analyzer for the hideout recipes of
Escape from Tarkov, together with the small text rules of its wiki scraper
that decide quantities, tools and links.

- **Graph construction.** Recipes are numbered 0, 1, … in input order. Two
  indexes are built over them, from output name to producer ids and from
  input name to consumer ids. Inputs marked `consumable: false` are tools
  and add no consumer entry.
- **Cycle finder.** A depth-first search runs from every recipe. Its edges
  go from a recipe to every consumer of its output. When the search meets an
  id already on its path, the slice from that id is a cycle. Each cycle is
  rotated to start at its smallest id and recorded once. Paths never grow
  beyond the maximum length, and slices shorter than the minimum length are
  dropped.
- **Cycle analysis.** For one cycle the analyzer computes:
  - the total duration, under four modes: range, avg, min and max;
  - what the cycle consumes and what it produces;
  - the net balance;
  - whether the cycle is self-sustaining.
- **Report ordering.** An optional filter keeps only the self-sustaining
  cycles. Python's stable sort then orders them by one of three keys.
  `format_seconds` renders a number of seconds as hours, minutes and
  seconds.
- **Scraper text rules.** The scraper decides:
  - an input's quantity and whether it is a tool;
  - an output's quantity;
  - how item links and requirement strings are written.

Modules, in dependency order:

| file | module | contents |
|---|---|---|
| `Recipes.dfy` | `Recipes` | Recipe records, numbered recipes, the consumable rule, and `d.get` on the id and quantity tables. |
| `Cycles.dfy` | `Cycles` | `index`, `min`, rotation and the normal form of a cycle. |
| `Graph.dfy` | `Graph` | The indexes as functions of the input, walks and simple cycles, and the class `CraftingGraph` with `BuildGraph`, `Dfs` and `FindAllCycles`. |
| `Analysis.dfy` | `Analysis` | The datatype `CycleAnalysis`, with the `_calculate_*` loops proved equal to fold functions. |
| `Numerals.dfy` | `Numerals` | ASCII digit strings and `int`/`str`, `strip` and `replace`. |
| `RecipeText.dfy` | `RecipeText` | The scraper's quantity, tool and link rules. |
| `Report.dfy` | `Report` | `get_duration_value`, the filter, the three sort orders and `format_seconds`. |

The graph is a class because `_build_graph` fills its lists and indexes in
place. Its ghost field `records` and the predicate `Valid()` tie those
fields to the functions `Numbered`, `ProducersOf` and `ConsumersOf` of the
input. `FindAllCycles` is proved both sound and complete:
- every returned cycle is a simple closed walk of the consumer index, in
  normal form, with `minLength <= |c| <= maxLength`;
- the returned list has no duplicates;
- the normal form of every simple cycle whose length lies in those bounds
  is returned.

Points where the code's behaviour may be unexpected:
- The consumer index is a list. A recipe that lists one input twice
  appears twice under that name; it is not a deduplicated set.
- `min_length <= max_length` is not checked. A minimum above the maximum
  simply yields no cycles, and a maximum of 0 or less yields none at all.
- The length bound on cycles has no explicit check. It holds because a
  path never grows beyond `max_length`.
- An output quantity can be 0, from the text `0` or `x0`, so an output
  quantity is not always at least 1.

## Model

| member | source | states |
|---|---|---|
| Recipes.Number | analyze_cycles.py:34-42 | The stored recipe keeps its id, station, level, inputs and output. A missing duration becomes 0 seconds and missing requirements become none. |
| Recipes.ConsumableCountPositive | analyze_cycles.py:52-57 | A recipe has at least one consumable input of a name exactly when one of its input entries with that name is not `consumable: false`. |
| Recipes.LookupAppend | analyze_cycles.py:47-57 | Appending to a `defaultdict(list)` extends only the list of that key. |
| Cycles.IndexOf | analyze_cycles.py:69 | `path.index(x)` is the first position holding `x`. |
| Cycles.Min | analyze_cycles.py:77 | `min(cycle)` is an element of the cycle and no larger than any other. |
| Cycles.Normalize | analyze_cycles.py:76-78 | The normal form has the cycle's ids, each as often as before, and starts with the smallest of them. |
| Cycles.RotateRotate | analyze_cycles.py:77-78 | Two rotations compose into one rotation by the summed offset, modulo the length. |
| Cycles.NormalizeShape | analyze_cycles.py:76-78 | No id of the normalized cycle is smaller than its first, and it holds exactly the ids of the cycle. |
| Cycles.NormalizedFixed | analyze_cycles.py:76-78 | Normalizing a cycle that already starts with its minimum leaves it unchanged. |
| Cycles.NormalizeIdempotent | analyze_cycles.py:76-78 | Normalizing twice gives the same as normalizing once. |
| Cycles.NormalizeRotation | analyze_cycles.py:76-81 | Every rotation of a cycle without repeated ids has the same normal form, so one cycle found from different starts is recorded once. |
| Graph.Numbered | analyze_cycles.py:29-45 | Recipe `i` is record `i`, numbered `i`: ids are exactly 0..n-1 in input order. |
| Graph.ProducersIndex | analyze_cycles.py:47-49 | Every id is listed exactly once among the producers, under its own output name, and no other id is listed. |
| Graph.ConsumersIndex | analyze_cycles.py:51-57 | An id is listed under a name once per consumable input entry of that name, so duplicates repeat. Tools add nothing, and ids out of range are never listed. |
| Graph.EdgeMeaning | analyze_cycles.py:89-95 | The search has an edge from a to b exactly when recipe b consumes, as a non-tool input, what recipe a produces. |
| Graph.NormalizeSimpleCycle | analyze_cycles.py:76-78 | The normal form of a simple cycle is again a simple cycle of the same length. |
| Graph.SliceIsCycle | analyze_cycles.py:67-70 | The path slice from the repeated id, closed by the edge back to it, is a simple cycle. |
| Graph.ClosureAccepted | analyze_cycles.py:67-81 | A closed slice that passes the length check, once normalized, satisfies every condition on a returned cycle. |
| Graph.ExtendComplete | analyze_cycles.py:93-95 | Once every consumer has been searched, every cycle closable from the current id is recorded. |
| Graph.RecordClosure | analyze_cycles.py:67-82 | Recording a closed slice keeps the result list free of duplicates and acceptable, and completes the search at that id. |
| Graph.CraftingGraph.constructor | analyze_cycles.py:19-25 | The graph built from the records has ids 0..n-1 and indexes equal to those of the records. |
| Graph.CraftingGraph.BuildGraph | analyze_cycles.py:27-59 | After the loop, the recipes, producers and consumers are exactly `Numbered`, `ProducersOf` and `ConsumersOf` of the records. |
| Graph.CraftingGraph.Dfs | analyze_cycles.py:66-97 | The result only grows and has no duplicates. Everything added is an acceptable cycle. Every cycle the search can close from this id and path is recorded. |
| Graph.CraftingGraph.FindAllCycles | analyze_cycles.py:61-104 | The result has no duplicates. Each cycle is a simple closed walk in normal form with length in `[minLength, maxLength]`. The normal form of every such simple cycle is returned. |
| Analysis.CalculateDuration | analyze_cycles.py:184-228 | The loops compute `TotalDuration`. Range mode gives Σmin and Σmax, or a single number without any range. Avg gives Σ midpoints, min and max give Σ of that bound, and any other mode gives 0. |
| Analysis.NoRangeCollapses | analyze_cycles.py:188-228 | With no ranged recipe, the four modes give one and the same number. |
| Analysis.MidOfSums | analyze_cycles.py:188-215 | The avg total is the midpoint of the min and max totals. |
| Analysis.ModesOrdered | analyze_cycles.py:184-228 | When every range has min ≤ max, the totals satisfy min ≤ avg ≤ max. |
| Analysis.ConsumedMeaning | analyze_cycles.py:230-241 | Consumption under a name is the sum of that name's consumable input quantities. A name has an entry exactly when some recipe consumes it. |
| Analysis.ProducedMeaning | analyze_cycles.py:243-251 | Production under a name is the sum of that name's output quantities. A name has an entry exactly when some recipe produces it. |
| Analysis.CalculateInputs | analyze_cycles.py:230-241 | The nested loops compute `Consumed` of the cycle's recipes. |
| Analysis.CalculateOutputs | analyze_cycles.py:243-251 | The loop computes `Produced` of the cycle's recipes. |
| Analysis.CalculateBalance | analyze_cycles.py:253-266 | The loop over the union of names, in any order, computes `NetBalance`. |
| Analysis.BalanceEntries | analyze_cycles.py:258-264 | Every name reads as produced minus consumed, with missing entries counted as 0. No stored entry is 0. |
| Analysis.BalanceConservation | analyze_cycles.py:253-266 | The balances sum to total production minus total consumption. |
| Analysis.CheckSelfSustaining | analyze_cycles.py:268-282 | The early-return loop answers `SelfSustaining`: no negative balance and at least one positive. An empty balance gives false. |
| Analysis.SelfSustainingMeaning | analyze_cycles.py:253-282 | Self-sustaining holds exactly when no name is consumed beyond its production and some name is produced beyond its consumption. |
| Analysis.CycleRecipes | analyze_cycles.py:176 | The cycle's recipes are the stored recipes at its ids, in cycle order. |
| Analysis.Analyze | analyze_cycles.py:172-182 | Every field of the analysis is the corresponding function of the cycle's recipes. A missing mode means "range". |
| Report.DurationValue | analyze_cycles.py:367-371 | A plain duration sorts by itself. A range sorts by its midpoint, which lies between its ends when min ≤ max. |
| Report.RangeValueIsAverage | analyze_cycles.py:367-371 | The sort value of a range total equals the avg total of the same recipes. |
| Report.FilterSustaining | analyze_cycles.py:413-414 | Every kept analysis is self-sustaining and comes from the input, and every self-sustaining analysis of the input is kept. |
| Report.Arranged | analyze_cycles.py:413-427 | The written list is a permutation of all analyses, or of the kept self-sustaining ones when filtering. With filtering, every written analysis is self-sustaining. |
| Report.FilterAppend | analyze_cycles.py:413-415 | Filtering commutes with concatenation, so the kept analyses stay in their original order. |
| Report.FilterMeaning | analyze_cycles.py:413-415 | Exactly the self-sustaining analyses are kept, each as often as it occurs. |
| Report.SortFacts | analyze_cycles.py:422-427 | The sort is a permutation and is ordered by the key. It is stable: analyses with equal keys keep their input order. |
| Report.ArrangedContents | analyze_cycles.py:413-427 | The report holds all analyses, or only the self-sustaining ones when filtering, each as often as it occurs. Equal keys keep their order, and an unknown sort key changes nothing. |
| Report.SelfSustainingOrder | analyze_cycles.py:422-423 | Sustaining cycles come before all others, and longer cycles come first within each group. |
| Report.LengthOrder | analyze_cycles.py:424-425 | Cycle lengths never increase along the report. |
| Report.DurationOrder | analyze_cycles.py:426-427 | Duration values, midpoints for ranges, never increase along the report. |
| Report.PartsMeaning | analyze_cycles.py:352-362 | For seconds ≥ 0, the hour, minute and second parts add back up to the input. Every part is non-zero, units strictly decrease, and minutes and seconds stay below 60. |
| Report.FormatSeconds | analyze_cycles.py:347-364 | The text starts with a digit. A non-negative number is written `0сек` exactly when it is 0. |
| Numerals.DecimalRoundTrip | parse_crafting_recipes.py:66 | `int(str(n)) == n`, and the text is all digits with no leading zero. |
| Numerals.StripSlice | parse_crafting_recipes.py:65 | `strip()` keeps the slice of the input that starts after the leading whitespace. |
| Numerals.StripDropsSpace | parse_crafting_recipes.py:65 | `strip()` drops only whitespace. |
| Numerals.RemoveChar | parse_crafting_recipes.py:65 | `replace('x', '')` leaves no `x` and keeps every other character as often as before. |
| RecipeText.InputQuantity | parse_crafting_recipes.py:65-66 | An input's quantity is 0 exactly when the text is blank or all zeros. All-digit text gives its decimal value, leading zeros included (`05` gives 5). Text that is neither blank nor all digits gives 1. |
| RecipeText.OutputQuantity | parse_crafting_recipes.py:91-92 | An output's quantity is 0 exactly when the text is non-blank and all zeros. All-digit text gives its decimal value, leading zeros included. Text that is not all digits, blank included, gives 1. |
| RecipeText.ScrapedInput | parse_crafting_recipes.py:65-67 | The entry keeps the name and the input quantity. Its consumable flag is always written, and it is true exactly when the quantity is not 0, so the input is a tool exactly when its text is blank or all zeros. |
| RecipeText.QuantityRules | parse_crafting_recipes.py:65-92 | Blank quantity text gives 0 for an input and 1 for an output. Otherwise the input and output rules agree. |
| RecipeText.QuantityRoundTrip | parse_crafting_recipes.py:65-92 | A quantity written `n`, `xn` or `nx` reads back as `n` for inputs and outputs alike. |
| RecipeText.WikiLink | parse_crafting_recipes.py:58 | An item link is the wiki host followed by the href, which can be read back unchanged. |
| RecipeText.RequirementLink | parse_crafting_recipes.py:102 | A site path becomes the item link. Any other href is kept as it is. The link always ends with the href. |
| RecipeText.Requirement | parse_crafting_recipes.py:100-105 | Without a non-empty href the requirement is the bare text. With one it starts with `[`, ends with `)`, and is four characters longer than the text and the link together. `RequirementReadBack` states where the text and the link sit inside it. |
| RecipeText.RequirementLinkFacts | parse_crafting_recipes.py:102 | The requirement link is idempotent: applying the rule to a written link leaves it unchanged. |
| RecipeText.RequirementReadBack | parse_crafting_recipes.py:101-103 | From `[text](link)` the text and the link can be read back at fixed positions. |

## Left out

- The station → level → recipe walk (analyze_cycles.py:31-33) only fixes
  the order of recipes. The model takes that order as a flat list of
  records.
- `recipe_id_map` is always equal to the recipe list indexed by id. The
  model uses the list.
- `visited_in_path` always holds exactly the ids on `path` when it is
  consulted, so the model checks membership in `path` instead.
- Graph.CraftingGraph.FindAllCycles: the contract states which cycles are
  returned and that each appears once, not the order of discovery. The
  method performs the searches in the source's order.
- Input is limited to fields that can be well-typed:
  - the value of `consumable` is an optional boolean, so other falsy YAML
    values (`null`, `0`) are not represented;
  - durations are integers or integer `{min, max}` pairs.
- Python floats are not modelled. The halving in avg mode and in
  `get_duration_value` is exact `real` division. `format_seconds` is
  modelled on integers only, and `format_duration` is not modelled.
- Input/output and configuration are not modelled:
  - YAML and JSON input/output;
  - console printing (`print_cycle_analysis`, the summary prints in `main`);
  - `export_to_json`;
  - argparse in `AnalysisConfig.from_args`.

  The configuration defaults are `max_cycle_length = 10`,
  `min_cycle_length = 1` and `duration_mode = 'range'`.
  `find_all_cycles` has its own default `min_length = 2`. The model takes
  every setting as an explicit parameter.
- In the scraper, the HTML traversal is not modelled. `get_text(strip=True)`
  is approximated by stripping the whole tag text. The model covers only
  the quantity, tool and link rules applied to those texts.
- Digits and whitespace are limited to ASCII: `IsSpace` holds for the
  ASCII characters `str.isspace()` accepts, the separators 28 to 31
  included. Python's `isdigit` and `strip` also accept non-ASCII digits
  and spaces.
- Missing fields are not modelled as errors. The code has no validation and
  no error type: a missing field raises `KeyError`. The model instead makes
  the corresponding lookups preconditions, with ids in range and fields
  present by construction of the datatypes.
- `generate_viewer.py` is not part of this model.
