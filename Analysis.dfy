/** The analysis of one cycle: total craft time under a duration mode, the
    items consumed and produced, their net balance, and whether the cycle
    sustains itself. Each `Calculate…` method is the loop that computes one
    part and is proved equal to a function that states what it computes. */
module Analysis {
  import opened Recipes

  /** A total craft time: one number, or a `{min, max}` range. */
  datatype Total = Scalar(value: real) | Span(min: int, max: int)

  datatype CycleAnalysis = CycleAnalysis(
    cycle: seq<nat>,
    totalDuration: Total,
    inputsConsumed: map<string, int>,
    outputsProduced: map<string, int>,
    netBalance: map<string, int>,
    isSelfSustaining: bool)

  // ---------------------------------------------------------------------
  // Duration
  // ---------------------------------------------------------------------

  /** The lower bound of a duration; plain seconds are their own bound. */
  function Lo(d: Duration): int {
    match d
    case Seconds(s) => s
    case Range(lo, _) => lo
  }

  function Hi(d: Duration): int {
    match d
    case Seconds(s) => s
    case Range(_, hi) => hi
  }

  /** The midpoint `(min + max) / 2` of a range; plain seconds count as themselves. */
  function Mid(d: Duration): real {
    match d
    case Seconds(s) => s as real
    case Range(lo, hi) => (lo + hi) as real / 2.0
  }

  function SumLo(rs: seq<Recipe>): int {
    if rs == [] then 0 else SumLo(rs[..|rs| - 1]) + Lo(rs[|rs| - 1].duration)
  }

  function SumHi(rs: seq<Recipe>): int {
    if rs == [] then 0 else SumHi(rs[..|rs| - 1]) + Hi(rs[|rs| - 1].duration)
  }

  function SumMid(rs: seq<Recipe>): real {
    if rs == [] then 0.0 else SumMid(rs[..|rs| - 1]) + Mid(rs[|rs| - 1].duration)
  }

  /** Some recipe of the list has a `{min, max}` duration. */
  predicate HasRange(rs: seq<Recipe>) {
    exists i | 0 <= i < |rs| :: rs[i].duration.Range?
  }

  /** The total duration of the recipes under `mode`: "range" gives the sums
      of the minimums and maximums (a single number when no recipe has a
      range), "avg" the sum of midpoints, "min"/"max" the sum of that bound,
      and any other mode 0. */
  function TotalDuration(rs: seq<Recipe>, mode: string): Total {
    if mode == "range" then
      (if HasRange(rs) then Span(SumLo(rs), SumHi(rs)) else Scalar(SumLo(rs) as real))
    else if mode == "avg" then Scalar(SumMid(rs))
    else if mode == "min" then Scalar(SumLo(rs) as real)
    else if mode == "max" then Scalar(SumHi(rs) as real)
    else Scalar(0.0)
  }

  /** `_calculate_duration`: one accumulating loop per mode. */
  method CalculateDuration(rs: seq<Recipe>, mode: string) returns (total: Total)
    ensures total == TotalDuration(rs, mode)
  {
    if mode == "range" {
      var totalMin, totalMax := 0, 0;
      var hasRange := false;
      for i := 0 to |rs|
        invariant totalMin == SumLo(rs[..i]) && totalMax == SumHi(rs[..i])
        invariant hasRange == HasRange(rs[..i])
      {
        assert rs[..i + 1][..i] == rs[..i];
        match rs[i].duration {
          case Range(lo, hi) =>
            totalMin := totalMin + lo;
            totalMax := totalMax + hi;
            hasRange := true;
          case Seconds(s) =>
            totalMin := totalMin + s;
            totalMax := totalMax + s;
        }
        assert rs[i].duration.Range? ==> rs[..i + 1][i].duration.Range?;
        assert HasRange(rs[..i + 1]) ==> HasRange(rs[..i]) || rs[i].duration.Range?;
      }
      assert rs[..|rs|] == rs;
      return if hasRange then Span(totalMin, totalMax) else Scalar(totalMin as real);
    } else if mode == "avg" {
      var sum: real := 0.0;
      for i := 0 to |rs|
        invariant sum == SumMid(rs[..i])
      {
        assert rs[..i + 1][..i] == rs[..i];
        match rs[i].duration {
          case Range(lo, hi) => sum := sum + (lo + hi) as real / 2.0;
          case Seconds(s) => sum := sum + s as real;
        }
      }
      assert rs[..|rs|] == rs;
      return Scalar(sum);
    } else if mode == "min" || mode == "max" {
      var sum := 0;
      for i := 0 to |rs|
        invariant sum == if mode == "min" then SumLo(rs[..i]) else SumHi(rs[..i])
      {
        assert rs[..i + 1][..i] == rs[..i];
        match rs[i].duration {
          case Range(lo, hi) => sum := sum + if mode == "min" then lo else hi;
          case Seconds(s) => sum := sum + s;
        }
      }
      assert rs[..|rs|] == rs;
      return Scalar(sum as real);
    }
    return Scalar(0.0);
  }

  /** Without any range, the minimum and maximum sums agree, so every mode
      gives the same single number. */
  lemma {:induction false} NoRangeCollapses(rs: seq<Recipe>)
    requires !HasRange(rs)
    ensures SumLo(rs) == SumHi(rs) && SumMid(rs) == SumLo(rs) as real
    ensures TotalDuration(rs, "range") == TotalDuration(rs, "min")
            == TotalDuration(rs, "max") == TotalDuration(rs, "avg")
  {
    if rs != [] {
      var front := rs[..|rs| - 1];
      assert !HasRange(front) by {
        forall i | 0 <= i < |front| ensures !front[i].duration.Range? {
          assert front[i] == rs[i];
        }
      }
      NoRangeCollapses(front);
      assert !rs[|rs| - 1].duration.Range?;
    }
  }

  /** The sum of midpoints is the midpoint of the two sums: "avg" is the
      midpoint of "range". */
  lemma {:induction false} MidOfSums(rs: seq<Recipe>)
    ensures SumMid(rs) == (SumLo(rs) + SumHi(rs)) as real / 2.0
  {
    if rs != [] {
      MidOfSums(rs[..|rs| - 1]);
    }
  }

  /** Every range of the list is ordered, `min <= max`. */
  predicate RangesOrdered(rs: seq<Recipe>) {
    forall i | 0 <= i < |rs| :: Lo(rs[i].duration) <= Hi(rs[i].duration)
  }

  /** With ordered ranges, "min" <= "avg" <= "max". */
  lemma ModesOrdered(rs: seq<Recipe>)
    requires RangesOrdered(rs)
    ensures TotalDuration(rs, "min").value <= TotalDuration(rs, "avg").value <= TotalDuration(rs, "max").value
  {
    MidOfSums(rs);
    SumsOrdered(rs);
  }

  lemma {:induction false} SumsOrdered(rs: seq<Recipe>)
    requires RangesOrdered(rs)
    ensures SumLo(rs) <= SumHi(rs)
  {
    if rs != [] {
      var front := rs[..|rs| - 1];
      assert RangesOrdered(front) by {
        forall i | 0 <= i < |front| ensures Lo(front[i].duration) <= Hi(front[i].duration) {
          assert front[i] == rs[i];
        }
      }
      SumsOrdered(front);
    }
  }

  // ---------------------------------------------------------------------
  // Consumption and production
  // ---------------------------------------------------------------------

  /** `inputs[name] += qty` for the consumable entries of one recipe, in order. */
  function AddInputs(m: map<string, int>, ins: seq<Input>): map<string, int> {
    if ins == [] then m
    else
      var m1 := AddInputs(m, ins[..|ins| - 1]);
      var i := ins[|ins| - 1];
      if IsConsumable(i) then m1[i.name := Get(m1, i.name) + i.quantity] else m1
  }

  /** The consumption table of the recipes: quantities of consumable inputs
      added up per item name. */
  function Consumed(rs: seq<Recipe>): map<string, int> {
    if rs == [] then map[] else AddInputs(Consumed(rs[..|rs| - 1]), rs[|rs| - 1].inputs)
  }

  /** The production table of the recipes: output quantities added up per name. */
  function Produced(rs: seq<Recipe>): map<string, int> {
    if rs == [] then map[]
    else
      var m := Produced(rs[..|rs| - 1]);
      var o := rs[|rs| - 1].output;
      m[o.name := Get(m, o.name) + o.quantity]
  }

  /** Reference sums for one item name. */
  function InputQty(ins: seq<Input>, name: string): int {
    if ins == [] then 0
    else InputQty(ins[1..], name) + (if IsConsumable(ins[0]) && ins[0].name == name then ins[0].quantity else 0)
  }

  function ConsumedQty(rs: seq<Recipe>, name: string): int {
    if rs == [] then 0 else InputQty(rs[0].inputs, name) + ConsumedQty(rs[1..], name)
  }

  function ProducedQty(rs: seq<Recipe>, name: string): int {
    if rs == [] then 0
    else (if rs[0].output.name == name then rs[0].output.quantity else 0) + ProducedQty(rs[1..], name)
  }

  lemma {:induction false} InputQtySnoc(ins: seq<Input>, name: string)
    requires ins != []
    ensures InputQty(ins, name) == InputQty(ins[..|ins| - 1], name)
            + (if IsConsumable(ins[|ins| - 1]) && ins[|ins| - 1].name == name then ins[|ins| - 1].quantity else 0)
  {
    if |ins| > 1 {
      InputQtySnoc(ins[1..], name);
      assert ins[1..][..|ins| - 2] == ins[..|ins| - 1][1..];
    }
  }

  lemma {:induction false} AddInputsMeaning(m: map<string, int>, ins: seq<Input>, name: string)
    ensures Get(AddInputs(m, ins), name) == Get(m, name) + InputQty(ins, name)
    ensures name in AddInputs(m, ins) <==> name in m || Consumes(ins, name)
  {
    if ins != [] {
      var front := ins[..|ins| - 1];
      AddInputsMeaning(m, front, name);
      InputQtySnoc(ins, name);
      if Consumes(front, name) {
        var j :| 0 <= j < |front| && IsConsumable(front[j]) && front[j].name == name;
        assert ins[j] == front[j];
      }
      if Consumes(ins, name) && !Consumes(front, name) {
        var j :| 0 <= j < |ins| && IsConsumable(ins[j]) && ins[j].name == name;
        if j < |front| { assert front[j] == ins[j]; }
      }
    }
  }

  lemma {:induction false} ConsumedQtySnoc(rs: seq<Recipe>, name: string)
    requires rs != []
    ensures ConsumedQty(rs, name) == ConsumedQty(rs[..|rs| - 1], name) + InputQty(rs[|rs| - 1].inputs, name)
  {
    if |rs| > 1 {
      ConsumedQtySnoc(rs[1..], name);
      assert rs[1..][..|rs| - 2] == rs[..|rs| - 1][1..];
    }
  }

  lemma {:induction false} ProducedQtySnoc(rs: seq<Recipe>, name: string)
    requires rs != []
    ensures ProducedQty(rs, name) == ProducedQty(rs[..|rs| - 1], name)
            + (if rs[|rs| - 1].output.name == name then rs[|rs| - 1].output.quantity else 0)
  {
    if |rs| > 1 {
      ProducedQtySnoc(rs[1..], name);
      assert rs[1..][..|rs| - 2] == rs[..|rs| - 1][1..];
    }
  }

  /** The consumption table holds, under each name, the sum of the
      quantities of the consumable inputs of that name, and has an entry
      exactly for the names some recipe consumes. Tools contribute nothing. */
  lemma {:induction false} ConsumedMeaning(rs: seq<Recipe>, name: string)
    ensures Get(Consumed(rs), name) == ConsumedQty(rs, name)
    ensures name in Consumed(rs) <==> exists i | 0 <= i < |rs| :: Consumes(rs[i].inputs, name)
  {
    if rs != [] {
      var front := rs[..|rs| - 1];
      ConsumedMeaning(front, name);
      AddInputsMeaning(Consumed(front), rs[|rs| - 1].inputs, name);
      ConsumedQtySnoc(rs, name);
      if exists i | 0 <= i < |front| :: Consumes(front[i].inputs, name) {
        var i :| 0 <= i < |front| && Consumes(front[i].inputs, name);
        assert rs[i] == front[i];
      }
      if exists i | 0 <= i < |rs| :: Consumes(rs[i].inputs, name) {
        var i :| 0 <= i < |rs| && Consumes(rs[i].inputs, name);
        if i < |front| { assert front[i] == rs[i]; }
      }
    }
  }

  /** The production table holds, under each name, the sum of the output
      quantities of that name, and has an entry exactly for the names some
      recipe produces. */
  lemma {:induction false} ProducedMeaning(rs: seq<Recipe>, name: string)
    ensures Get(Produced(rs), name) == ProducedQty(rs, name)
    ensures name in Produced(rs) <==> exists i | 0 <= i < |rs| :: rs[i].output.name == name
  {
    if rs != [] {
      var front := rs[..|rs| - 1];
      ProducedMeaning(front, name);
      ProducedQtySnoc(rs, name);
      if exists i | 0 <= i < |front| :: front[i].output.name == name {
        var i :| 0 <= i < |front| && front[i].output.name == name;
        assert rs[i] == front[i];
      }
    }
  }

  /** `_calculate_inputs`: a `defaultdict(int)` filled over every consumable
      input of every recipe. */
  method CalculateInputs(rs: seq<Recipe>) returns (inputs: map<string, int>)
    ensures inputs == Consumed(rs)
  {
    inputs := map[];
    for i := 0 to |rs|
      invariant inputs == Consumed(rs[..i])
    {
      assert rs[..i + 1][..i] == rs[..i];
      var ins := rs[i].inputs;
      for j := 0 to |ins|
        invariant inputs == AddInputs(Consumed(rs[..i]), ins[..j])
      {
        assert ins[..j + 1][..j] == ins[..j];
        var item := ins[j];
        if IsConsumable(item) {
          inputs := inputs[item.name := Get(inputs, item.name) + item.quantity];
        }
      }
      assert ins[..|ins|] == ins;
    }
    assert rs[..|rs|] == rs;
  }

  /** `_calculate_outputs`: a `defaultdict(int)` filled over the outputs. */
  method CalculateOutputs(rs: seq<Recipe>) returns (outputs: map<string, int>)
    ensures outputs == Produced(rs)
  {
    outputs := map[];
    for i := 0 to |rs|
      invariant outputs == Produced(rs[..i])
    {
      assert rs[..i + 1][..i] == rs[..i];
      var output := rs[i].output;
      outputs := outputs[output.name := Get(outputs, output.name) + output.quantity];
    }
    assert rs[..|rs|] == rs;
  }

  // ---------------------------------------------------------------------
  // Balance
  // ---------------------------------------------------------------------

  /** `produced - consumed` for the names in `items`, missing entries read as
      0, zero differences left out. */
  function NetOver(consumed: map<string, int>, produced: map<string, int>, items: set<string>): map<string, int> {
    map item | item in items && Get(produced, item) - Get(consumed, item) != 0
      :: Get(produced, item) - Get(consumed, item)
  }

  /** The net balance over every name that is consumed or produced. */
  function NetBalance(consumed: map<string, int>, produced: map<string, int>): map<string, int> {
    NetOver(consumed, produced, consumed.Keys + produced.Keys)
  }

  /** `_calculate_balance`: a loop over the union of the two key sets, in
      whatever order the set yields them. */
  method CalculateBalance(consumed: map<string, int>, produced: map<string, int>)
    returns (balance: map<string, int>)
    ensures balance == NetBalance(consumed, produced)
  {
    var allItems := consumed.Keys + produced.Keys;
    balance := map[];
    var rest := allItems;
    while rest != {}
      invariant rest <= allItems
      invariant balance == NetOver(consumed, produced, allItems - rest)
    {
      var item :| item in rest;
      var c := Get(consumed, item);
      var p := Get(produced, item);
      var net := p - c;
      if net != 0 {
        balance := balance[item := net];
      }
      rest := rest - {item};
      assert allItems - rest == (allItems - (rest + {item})) + {item};
    }
  }

  /** Every name reads as produced minus consumed in the balance, missing
      entries counting as 0 on both sides, and no stored entry is 0. */
  lemma BalanceEntries(consumed: map<string, int>, produced: map<string, int>, item: string)
    ensures Get(NetBalance(consumed, produced), item) == Get(produced, item) - Get(consumed, item)
    ensures item in NetBalance(consumed, produced) ==> NetBalance(consumed, produced)[item] != 0
  {
  }

  /** The sum of the values of `m` over `keys` (missing keys read as 0). */
  ghost function SumOver(m: map<string, int>, keys: set<string>): int
    decreases keys
  {
    if keys == {} then 0
    else
      var k :| k in keys;
      Get(m, k) + SumOver(m, keys - {k})
  }

  /** The sum does not depend on which key is taken out first. */
  lemma {:induction false} SumOverRemove(m: map<string, int>, keys: set<string>, k: string)
    requires k in keys
    ensures SumOver(m, keys) == Get(m, k) + SumOver(m, keys - {k})
    decreases keys
  {
    var k' :| k' in keys && SumOver(m, keys) == Get(m, k') + SumOver(m, keys - {k'});
    if k' != k {
      SumOverRemove(m, keys - {k'}, k);
      SumOverRemove(m, keys - {k}, k');
      assert keys - {k'} - {k} == keys - {k} - {k'};
    }
  }

  /** Keys outside the table add nothing to a sum. */
  lemma {:induction false} SumOverZeros(m: map<string, int>, small: set<string>, large: set<string>)
    requires small <= large
    requires forall k | k in large - small :: Get(m, k) == 0
    ensures SumOver(m, large) == SumOver(m, small)
    decreases large
  {
    if large - small != {} {
      var k :| k in large - small;
      SumOverRemove(m, large, k);
      SumOverZeros(m, small, large - {k});
    } else {
      forall x | x in large ensures x in small {
        assert x !in large - small;
      }
      assert large == small;
    }
  }

  /** A sum of differences is the difference of the sums. */
  lemma {:induction false} SumOverDifference(b: map<string, int>, p: map<string, int>, c: map<string, int>, keys: set<string>)
    requires forall k | k in keys :: Get(b, k) == Get(p, k) - Get(c, k)
    ensures SumOver(b, keys) == SumOver(p, keys) - SumOver(c, keys)
    decreases keys
  {
    if keys != {} {
      var k :| k in keys;
      SumOverRemove(b, keys, k);
      SumOverRemove(p, keys, k);
      SumOverRemove(c, keys, k);
      SumOverDifference(b, p, c, keys - {k});
    }
  }

  /** Balance conservation: the balances add up to everything produced
      minus everything consumed. */
  lemma BalanceConservation(consumed: map<string, int>, produced: map<string, int>)
    ensures var balance := NetBalance(consumed, produced);
            SumOver(balance, balance.Keys) == SumOver(produced, produced.Keys) - SumOver(consumed, consumed.Keys)
  {
    var balance := NetBalance(consumed, produced);
    var all := consumed.Keys + produced.Keys;
    SumOverZeros(balance, balance.Keys, all);
    SumOverDifference(balance, produced, consumed, all);
    SumOverZeros(produced, produced.Keys, all);
    SumOverZeros(consumed, consumed.Keys, all);
  }

  // ---------------------------------------------------------------------
  // Self-sustaining verdict
  // ---------------------------------------------------------------------

  /** No item has to come from outside, and at least one is left over. */
  predicate SelfSustaining(balance: map<string, int>) {
    (forall item | item in balance :: balance[item] >= 0)
    && (exists item | item in balance :: balance[item] > 0)
  }

  /** `_check_self_sustaining`: stops at the first negative balance. */
  method CheckSelfSustaining(balance: map<string, int>) returns (sustaining: bool)
    ensures sustaining == SelfSustaining(balance)
    ensures balance == map[] ==> !sustaining
  {
    var hasProfit := false;
    var rest := balance.Keys;
    while rest != {}
      invariant rest <= balance.Keys
      invariant forall item | item in balance.Keys - rest :: balance[item] >= 0
      invariant hasProfit <==> exists item | item in balance.Keys - rest :: balance[item] > 0
    {
      var item :| item in rest;
      if balance[item] < 0 {
        return false;
      }
      if balance[item] > 0 {
        hasProfit := true;
      }
      rest := rest - {item};
    }
    return hasProfit;
  }

  /** In terms of the two tables: the cycle is self-sustaining exactly when
      no item is consumed beyond what is produced and some item is produced
      beyond what is consumed. A cycle that only breaks even is not. */
  lemma SelfSustainingMeaning(consumed: map<string, int>, produced: map<string, int>)
    ensures SelfSustaining(NetBalance(consumed, produced)) <==>
            (forall item | item in consumed.Keys + produced.Keys :: Get(produced, item) >= Get(consumed, item))
            && (exists item | item in consumed.Keys + produced.Keys :: Get(produced, item) > Get(consumed, item))
  {
    var b := NetBalance(consumed, produced);
    if SelfSustaining(b) {
      forall item | item in consumed.Keys + produced.Keys ensures Get(produced, item) >= Get(consumed, item) {
        if Get(produced, item) - Get(consumed, item) != 0 {
          assert item in b;
        }
      }
    }
    if exists item | item in consumed.Keys + produced.Keys :: Get(produced, item) > Get(consumed, item) {
      var item :| item in consumed.Keys + produced.Keys && Get(produced, item) > Get(consumed, item);
      assert item in b && b[item] > 0;
    }
  }

  // ---------------------------------------------------------------------
  // The whole analysis
  // ---------------------------------------------------------------------

  /** The recipes of a cycle, looked up by id. */
  function CycleRecipes(cycle: seq<nat>, recipes: seq<Recipe>): (rs: seq<Recipe>)
    requires forall i | 0 <= i < |cycle| :: cycle[i] < |recipes|
    ensures |rs| == |cycle| && forall i | 0 <= i < |cycle| :: rs[i] == recipes[cycle[i]]
  {
    seq(|cycle|, i requires 0 <= i < |cycle| => recipes[cycle[i]])
  }

  /** `CycleAnalysis(cycle, graph, config)`: every field computed once, from
      the recipes of the cycle; the mode defaults to "range". */
  method Analyze(cycle: seq<nat>, recipes: seq<Recipe>, durationMode: Option<string>)
    returns (a: CycleAnalysis)
    requires forall i | 0 <= i < |cycle| :: cycle[i] < |recipes|
    ensures var rs := CycleRecipes(cycle, recipes);
            var mode := if durationMode.Some? then durationMode.value else "range";
            && a.cycle == cycle
            && a.totalDuration == TotalDuration(rs, mode)
            && a.inputsConsumed == Consumed(rs)
            && a.outputsProduced == Produced(rs)
            && a.netBalance == NetBalance(a.inputsConsumed, a.outputsProduced)
            && a.isSelfSustaining == SelfSustaining(a.netBalance)
  {
    var rs := CycleRecipes(cycle, recipes);
    var mode := if durationMode.Some? then durationMode.value else "range";
    var total := CalculateDuration(rs, mode);
    var consumed := CalculateInputs(rs);
    var produced := CalculateOutputs(rs);
    var balance := CalculateBalance(consumed, produced);
    var sustaining := CheckSelfSustaining(balance);
    a := CycleAnalysis(cycle, total, consumed, produced, balance, sustaining);
  }
}
