/** The crafting graph: recipes numbered in input order, the producer and
    consumer indexes built over them, and the depth-first search that
    enumerates the normalized simple cycles of bounded length. */
module Graph {
  import opened Recipes
  import opened Cycles

  // ---------------------------------------------------------------------
  // The indexes, as functions of the input records
  // ---------------------------------------------------------------------

  /** The recipe list: record `i` becomes recipe `i`. */
  function Numbered(rs: seq<RecipeRecord>): (out: seq<Recipe>)
    ensures |out| == |rs|
    ensures forall i | 0 <= i < |rs| :: out[i] == Number(rs[i], i)
  {
    seq(|rs|, i requires 0 <= i < |rs| => Number(rs[i], i))
  }

  /** `item_to_producers` after the records have been added in order. */
  function ProducersOf(rs: seq<RecipeRecord>): map<string, seq<nat>>
  {
    if rs == [] then map[]
    else Append(ProducersOf(rs[..|rs| - 1]), rs[|rs| - 1].output.name, |rs| - 1)
  }

  /** The consumer entries recipe `id` adds for its inputs, in input order;
      tools (`consumable: false`) add none. */
  function AddConsumers(m: map<string, seq<nat>>, ins: seq<Input>, id: nat): map<string, seq<nat>>
  {
    if ins == [] then m
    else
      var m1 := AddConsumers(m, ins[..|ins| - 1], id);
      var i := ins[|ins| - 1];
      if IsConsumable(i) then Append(m1, i.name, id) else m1
  }

  /** `item_to_consumers` after the records have been added in order. */
  function ConsumersOf(rs: seq<RecipeRecord>): map<string, seq<nat>>
  {
    if rs == [] then map[]
    else AddConsumers(ConsumersOf(rs[..|rs| - 1]), rs[|rs| - 1].inputs, |rs| - 1)
  }

  /** Each recipe id is listed exactly once among the producers, under its
      own output name, and no other id is listed. */
  lemma {:induction false} ProducersIndex(rs: seq<RecipeRecord>, name: string, id: nat)
    ensures multiset(Lookup(ProducersOf(rs), name))[id]
            == if id < |rs| && rs[id].output.name == name then 1 else 0
  {
    if rs != [] {
      var front := rs[..|rs| - 1];
      var last := rs[|rs| - 1];
      ProducersIndex(front, name, id);
      LookupAppend(ProducersOf(front), last.output.name, |rs| - 1, name);
      if id < |front| { assert front[id] == rs[id]; }
    }
  }

  lemma {:induction false} AddConsumersCount(m: map<string, seq<nat>>, ins: seq<Input>, id: nat, name: string, x: nat)
    ensures multiset(Lookup(AddConsumers(m, ins, id), name))[x]
            == multiset(Lookup(m, name))[x] + (if x == id then ConsumableCount(ins, name) else 0)
  {
    if ins != [] {
      var front := ins[..|ins| - 1];
      var last := ins[|ins| - 1];
      AddConsumersCount(m, front, id, name, x);
      if IsConsumable(last) {
        LookupAppend(AddConsumers(m, front, id), last.name, id, name);
      }
    }
  }

  /** Recipe `id` is listed among the consumers of `name` once per
      consumable input entry of that name (twice if it lists it twice), and
      no other id is listed. */
  lemma {:induction false} ConsumersIndex(rs: seq<RecipeRecord>, name: string, id: nat)
    ensures multiset(Lookup(ConsumersOf(rs), name))[id]
            == if id < |rs| then ConsumableCount(rs[id].inputs, name) else 0
  {
    if rs != [] {
      var front := rs[..|rs| - 1];
      ConsumersIndex(front, name, id);
      AddConsumersCount(ConsumersOf(front), rs[|rs| - 1].inputs, |rs| - 1, name, id);
      if id < |front| { assert front[id] == rs[id]; }
    }
  }

  /** Every id in a consumer list is the id of some recipe. */
  lemma ConsumerIdsInRange(rs: seq<RecipeRecord>, name: string)
    ensures forall x | x in Lookup(ConsumersOf(rs), name) :: x < |rs|
  {
    forall x | x in Lookup(ConsumersOf(rs), name) ensures x < |rs| {
      ConsumersIndex(rs, name, x);
      assert multiset(Lookup(ConsumersOf(rs), name))[x] > 0;
    }
  }

  lemma NumberedSnoc(data: seq<RecipeRecord>, i: nat)
    requires i < |data|
    ensures Numbered(data[..i + 1]) == Numbered(data[..i]) + [Number(data[i], i)]
  {
  }

  lemma ProducersSnoc(data: seq<RecipeRecord>, i: nat)
    requires i < |data|
    ensures ProducersOf(data[..i + 1]) == Append(ProducersOf(data[..i]), data[i].output.name, i)
  {
    assert data[..i + 1][..i] == data[..i];
  }

  lemma ConsumersSnoc(data: seq<RecipeRecord>, i: nat)
    requires i < |data|
    ensures ConsumersOf(data[..i + 1]) == AddConsumers(ConsumersOf(data[..i]), data[i].inputs, i)
  {
    assert data[..i + 1][..i] == data[..i];
  }

  lemma AddConsumersSnoc(m: map<string, seq<nat>>, ins: seq<Input>, j: nat, id: nat)
    requires j < |ins|
    ensures AddConsumers(m, ins[..j + 1], id)
            == if IsConsumable(ins[j]) then Append(AddConsumers(m, ins[..j], id), ins[j].name, id)
               else AddConsumers(m, ins[..j], id)
  {
    assert ins[..j + 1][..j] == ins[..j];
  }

  // ---------------------------------------------------------------------
  // Walks and cycles over the consumer index
  // ---------------------------------------------------------------------

  /** The search follows an edge from recipe `a` to every consumer of a's output. */
  predicate Edge(rs: seq<Recipe>, cons: map<string, seq<nat>>, a: nat, b: nat) {
    a < |rs| && b in Lookup(cons, rs[a].output.name)
  }

  /** Recipe `b` lists the output of recipe `a` as a consumable input. */
  predicate Feeds(records: seq<RecipeRecord>, a: nat, b: nat) {
    a < |records| && b < |records| && Consumes(records[b].inputs, records[a].output.name)
  }

  /** On the built indexes, an edge is exactly "b consumes what a makes". */
  lemma EdgeMeaning(records: seq<RecipeRecord>, a: nat, b: nat)
    ensures Edge(Numbered(records), ConsumersOf(records), a, b) <==> Feeds(records, a, b)
  {
    if a < |records| {
      var name := records[a].output.name;
      ConsumersIndex(records, name, b);
      if b < |records| {
        ConsumableCountPositive(records[b].inputs, name);
      }
      assert b in Lookup(ConsumersOf(records), name)
             <==> multiset(Lookup(ConsumersOf(records), name))[b] > 0;
    }
  }

  /** Consecutive ids are joined by edges. */
  predicate IsWalk(rs: seq<Recipe>, cons: map<string, seq<nat>>, p: seq<nat>) {
    forall i | 0 <= i < |p| - 1 :: Edge(rs, cons, p[i], p[i + 1])
  }

  /** The id after position `i`, wrapping from the last back to the first. */
  function Next(c: seq<nat>, i: nat): nat
    requires i < |c|
  {
    if i + 1 < |c| then c[i + 1] else c[0]
  }

  /** Every id has an edge to the next one, and the last to the first. */
  predicate IsClosedWalk(rs: seq<Recipe>, cons: map<string, seq<nat>>, c: seq<nat>) {
    |c| > 0 && forall i | 0 <= i < |c| :: Edge(rs, cons, c[i], Next(c, i))
  }

  predicate IsSimpleCycle(rs: seq<Recipe>, cons: map<string, seq<nat>>, c: seq<nat>) {
    Distinct(c) && IsClosedWalk(rs, cons, c)
  }

  /** What the cycle finder may return: a simple cycle in normal form whose
      length lies in the requested bounds. */
  predicate Accepted(rs: seq<Recipe>, cons: map<string, seq<nat>>, c: seq<nat>, minLength: int, maxLength: int) {
    IsSimpleCycle(rs, cons, c) && IsNormalized(c) && minLength <= |c| <= maxLength
  }

  /** Following a rotation one step is following the original one step. */
  lemma NextRotate(c: seq<nat>, s: nat, i: nat)
    requires s <= |c| && i < |c|
    ensures |Rotate(c, s)| == |c|
    ensures var p := if s + i < |c| then s + i else s + i - |c|;
            Rotate(c, s)[i] == c[p] && Next(Rotate(c, s), i) == Next(c, p)
  {
    RotateAt(c, s, i);
    if i + 1 < |c| { RotateAt(c, s, i + 1); } else { RotateAt(c, s, 0); }
  }

  lemma RotateClosedWalk(rs: seq<Recipe>, cons: map<string, seq<nat>>, c: seq<nat>, s: nat)
    requires IsClosedWalk(rs, cons, c) && s <= |c|
    ensures IsClosedWalk(rs, cons, Rotate(c, s))
  {
    var r := Rotate(c, s);
    var n := |c|;
    forall i | 0 <= i < n ensures Edge(rs, cons, r[i], Next(r, i)) {
      NextRotate(c, s, i);
      var p := if s + i < n then s + i else s + i - n;
      assert Edge(rs, cons, c[p], Next(c, p));
    }
  }

  /** The normal form of a simple cycle is a simple cycle of the same length. */
  lemma NormalizeSimpleCycle(rs: seq<Recipe>, cons: map<string, seq<nat>>, c: seq<nat>)
    requires IsSimpleCycle(rs, cons, c)
    ensures IsSimpleCycle(rs, cons, Normalize(c))
    ensures |Normalize(c)| == |c| && IsNormalized(Normalize(c))
  {
    var k := IndexOf(c, Min(c));
    NormalizeShape(c);
    RotateDistinct(c, k);
    RotateClosedWalk(rs, cons, c, k);
  }

  /** The slice of a walk from an id to the end, closed by an edge back to
      that id, is a simple cycle. */
  lemma SliceIsCycle(rs: seq<Recipe>, cons: map<string, seq<nat>>, path: seq<nat>, k: nat)
    requires Distinct(path) && IsWalk(rs, cons, path) && k < |path|
    requires Edge(rs, cons, path[|path| - 1], path[k])
    ensures IsSimpleCycle(rs, cons, path[k..])
  {
    var c := path[k..];
    forall i | 0 <= i < |c| ensures Edge(rs, cons, c[i], Next(c, i)) {
      if i + 1 < |c| {
        assert c[i] == path[k + i] && c[i + 1] == path[k + i + 1];
      }
    }
  }

  /** Every id on a cycle names a recipe. */
  lemma CycleIdsInRange(rs: seq<Recipe>, cons: map<string, seq<nat>>, c: seq<nat>)
    requires IsClosedWalk(rs, cons, c)
    ensures Min(c) < |rs|
  {
    var i := IndexOf(c, Min(c));
    assert Edge(rs, cons, c[i], Next(c, i));
  }

  lemma ClosedWalkIsWalk(rs: seq<Recipe>, cons: map<string, seq<nat>>, c: seq<nat>)
    requires IsClosedWalk(rs, cons, c)
    ensures IsWalk(rs, cons, c) && Edge(rs, cons, c[|c| - 1], c[0])
  {
    assert Edge(rs, cons, c[|c| - 1], Next(c, |c| - 1));
    forall i | 0 <= i < |c| - 1 ensures Edge(rs, cons, c[i], c[i + 1]) {
      assert Edge(rs, cons, c[i], Next(c, i));
    }
  }

  /** The search that starts at the first id of a simple cycle, with an
      empty path, can close that cycle. */
  lemma CycleCloses(rs: seq<Recipe>, cons: map<string, seq<nat>>, d: seq<nat>, maxLength: int)
    requires IsSimpleCycle(rs, cons, d) && |d| <= maxLength
    ensures Closes(rs, cons, [], d[0], 0, d[1..], maxLength)
    ensures ([] + [d[0]] + d[1..])[0..] == d
  {
    var full := [] + [d[0]] + d[1..];
    assert full == d;
    ClosedWalkIsWalk(rs, cons, d);
  }

  /** The search from the smallest id of a simple cycle, with an empty path,
      can close the cycle's normal form. */
  lemma NormalFormCloses(rs: seq<Recipe>, cons: map<string, seq<nat>>, c: seq<nat>, maxLength: int)
    requires IsSimpleCycle(rs, cons, c) && |c| <= maxLength
    ensures Normalize(c)[0] == Min(c)
    ensures Closes(rs, cons, [], Min(c), 0, Normalize(c)[1..], maxLength)
    ensures ([] + [Min(c)] + Normalize(c)[1..])[0..] == Normalize(c)
  {
    NormalizeSimpleCycle(rs, cons, c);
    NormalizeShape(c);
    CycleCloses(rs, cons, Normalize(c), maxLength);
  }

  /** A search from `id` with an empty path that recorded every closable
      extension has recorded every cycle whose smallest id is `id`. */
  lemma StartRecorded(rs: seq<Recipe>, cons: map<string, seq<nat>>, id: nat,
                      found: seq<seq<nat>>, minLength: int, maxLength: int)
    requires ExtensionsRecorded(rs, cons, [], id, found, minLength, maxLength)
    ensures forall c | IsSimpleCycle(rs, cons, c) && minLength <= |c| <= maxLength && Min(c) == id ::
              Normalize(c) in found
  {
    forall c | IsSimpleCycle(rs, cons, c) && minLength <= |c| <= maxLength && Min(c) == id
      ensures Normalize(c) in found
    {
      NormalFormCloses(rs, cons, c, maxLength);
      NormalizeIdempotent(c);
    }
  }

  /** No walk through a repeated id is free of repeats. */
  lemma RepeatBreaksDistinct(path: seq<nat>, id: nat)
    requires id in path
    ensures forall w :: !Distinct(path + [id] + w)
  {
    var k := IndexOf(path, id);
    forall w ensures !Distinct(path + [id] + w) {
      var full := path + [id] + w;
      assert full[k] == full[|path|];
    }
  }

  /** The search at `id` with `path` behind it can close the cycle
      `(path + [id] + w)[j..]`: the extended walk has no repeats, fits in
      `maxLength`, and its last id has an edge back to position `j`. */
  predicate Closes(rs: seq<Recipe>, cons: map<string, seq<nat>>,
                   path: seq<nat>, id: nat, j: nat, w: seq<nat>, maxLength: int)
  {
    var full := path + [id] + w;
    && j <= |path|
    && |full| <= maxLength
    && Distinct(full)
    && IsWalk(rs, cons, full)
    && Edge(rs, cons, full[|full| - 1], full[j])
  }

  /** When `id` is already on the path, the slice from it is recorded
      (unless it is too short). */
  predicate ClosureRecorded(path: seq<nat>, id: nat, found: seq<seq<nat>>, minLength: int) {
    (id in path && minLength <= |path| - IndexOf(path, id))
      ==> Normalize(path[IndexOf(path, id)..]) in found
  }

  /** Every cycle that the search at `id` after `path` can close is in `found`. */
  ghost predicate ExtensionsRecorded(rs: seq<Recipe>, cons: map<string, seq<nat>>, path: seq<nat>, id: nat,
                               found: seq<seq<nat>>, minLength: int, maxLength: int)
  {
    forall j: nat, w: seq<nat> |
      Closes(rs, cons, path, id, j, w, maxLength) && minLength <= |path| + 1 + |w| - j ::
      Normalize((path + [id] + w)[j..]) in found
  }

  /** What the search at `id` after `path` guarantees about `found`. */
  ghost predicate Complete(rs: seq<Recipe>, cons: map<string, seq<nat>>, path: seq<nat>, id: nat,
                     found: seq<seq<nat>>, minLength: int, maxLength: int)
  {
    ClosureRecorded(path, id, found, minLength)
    && ExtensionsRecorded(rs, cons, path, id, found, minLength, maxLength)
  }

  lemma CompleteGrows(rs: seq<Recipe>, cons: map<string, seq<nat>>, path: seq<nat>, id: nat,
                      a: seq<seq<nat>>, b: seq<seq<nat>>, minLength: int, maxLength: int)
    requires Complete(rs, cons, path, id, a, minLength, maxLength) && a <= b
    ensures Complete(rs, cons, path, id, b, minLength, maxLength)
  {
    PrefixKeeps(a, b);
  }

  /** Every cycle recorded so far may be returned. */
  ghost predicate AllAccepted(rs: seq<Recipe>, cons: map<string, seq<nat>>, cycles: seq<seq<nat>>,
                              minLength: int, maxLength: int)
  {
    forall c | c in cycles :: Accepted(rs, cons, c, minLength, maxLength)
  }

  /** The first `t` consumers in `next` have been searched after `extended`. */
  ghost predicate Searched(rs: seq<Recipe>, cons: map<string, seq<nat>>, extended: seq<nat>, next: seq<nat>,
                           t: nat, found: seq<seq<nat>>, minLength: int, maxLength: int)
    requires t <= |next|
  {
    forall s | 0 <= s < t :: Complete(rs, cons, extended, next[s], found, minLength, maxLength)
  }

  lemma SearchedGrows(rs: seq<Recipe>, cons: map<string, seq<nat>>, extended: seq<nat>, next: seq<nat>,
                      t: nat, a: seq<seq<nat>>, b: seq<seq<nat>>, minLength: int, maxLength: int)
    requires t < |next| && a <= b
    requires Searched(rs, cons, extended, next, t, a, minLength, maxLength)
    requires Complete(rs, cons, extended, next[t], b, minLength, maxLength)
    ensures Searched(rs, cons, extended, next, t + 1, b, minLength, maxLength)
  {
    forall s | 0 <= s < t ensures Complete(rs, cons, extended, next[s], b, minLength, maxLength) {
      CompleteGrows(rs, cons, extended, next[s], a, b, minLength, maxLength);
    }
  }

  /** A cycle closed by the edge from `id` straight back into the path is
      recorded by the search of that consumer. */
  lemma CloseNow(rs: seq<Recipe>, cons: map<string, seq<nat>>, path: seq<nat>, id: nat,
                 found: seq<seq<nat>>, minLength: int, maxLength: int, j: nat)
    requires id < |rs|
    requires Searched(rs, cons, path + [id], Lookup(cons, rs[id].output.name),
                      |Lookup(cons, rs[id].output.name)|, found, minLength, maxLength)
    requires Closes(rs, cons, path, id, j, [], maxLength) && minLength <= |path| + 1 - j
    ensures Normalize((path + [id] + [])[j..]) in found
  {
    var next := Lookup(cons, rs[id].output.name);
    var extended := path + [id];
    assert path + [id] + [] == extended;
    var s :| 0 <= s < |next| && next[s] == extended[j];
    IndexOfDistinct(extended, j);
    assert ClosureRecorded(extended, next[s], found, minLength);
  }

  /** A cycle that `id` closes through `w` is one that its consumer `w[0]`
      closes after `path + [id]`. */
  lemma ClosesShift(rs: seq<Recipe>, cons: map<string, seq<nat>>, path: seq<nat>, id: nat,
                    j: nat, w: seq<nat>, maxLength: int)
    requires w != [] && Closes(rs, cons, path, id, j, w, maxLength)
    ensures Edge(rs, cons, id, w[0])
    ensures Closes(rs, cons, path + [id], w[0], j, w[1..], maxLength)
    ensures path + [id] + [w[0]] + w[1..] == path + [id] + w
  {
    var full := path + [id] + w;
    assert full[|path|] == id && full[|path| + 1] == w[0];
    assert Edge(rs, cons, full[|path|], full[|path| + 1]);
    assert path + [id] + [w[0]] + w[1..] == full;
  }

  /** A cycle that goes on through a consumer `w[0]` of `id` is recorded by
      the search of that consumer. */
  lemma CloseLater(rs: seq<Recipe>, cons: map<string, seq<nat>>, path: seq<nat>, id: nat,
                   found: seq<seq<nat>>, minLength: int, maxLength: int, j: nat, w: seq<nat>)
    requires id < |rs| && w != []
    requires Searched(rs, cons, path + [id], Lookup(cons, rs[id].output.name),
                      |Lookup(cons, rs[id].output.name)|, found, minLength, maxLength)
    requires Closes(rs, cons, path, id, j, w, maxLength) && minLength <= |path| + 1 + |w| - j
    ensures Normalize((path + [id] + w)[j..]) in found
  {
    var next := Lookup(cons, rs[id].output.name);
    ClosesShift(rs, cons, path, id, j, w, maxLength);
    var s :| 0 <= s < |next| && next[s] == w[0];
    assert Complete(rs, cons, path + [id], next[s], found, minLength, maxLength);
  }

  /** Once every consumer of `id`'s output has been searched after
      `path + [id]`, every cycle closable from `id` after `path` is recorded. */
  lemma ExtendComplete(rs: seq<Recipe>, cons: map<string, seq<nat>>, path: seq<nat>, id: nat,
                       found: seq<seq<nat>>, minLength: int, maxLength: int)
    requires id < |rs|
    requires Searched(rs, cons, path + [id], Lookup(cons, rs[id].output.name),
                      |Lookup(cons, rs[id].output.name)|, found, minLength, maxLength)
    ensures ExtensionsRecorded(rs, cons, path, id, found, minLength, maxLength)
  {
    forall j: nat, w: seq<nat> |
      Closes(rs, cons, path, id, j, w, maxLength) && minLength <= |path| + 1 + |w| - j
      ensures Normalize((path + [id] + w)[j..]) in found
    {
      if w == [] {
        CloseNow(rs, cons, path, id, found, minLength, maxLength, j);
      } else {
        CloseLater(rs, cons, path, id, found, minLength, maxLength, j, w);
      }
    }
  }

  /** A search that meets an id already on the path cannot extend it. */
  lemma NothingExtends(rs: seq<Recipe>, cons: map<string, seq<nat>>, path: seq<nat>, id: nat,
                       found: seq<seq<nat>>, minLength: int, maxLength: int)
    requires id in path
    ensures ExtensionsRecorded(rs, cons, path, id, found, minLength, maxLength)
  {
    RepeatBreaksDistinct(path, id);
  }

  /** Appending an acceptable cycle that is not yet recorded keeps the
      recorded cycles distinct and acceptable. */
  lemma RecordNew(rs: seq<Recipe>, cons: map<string, seq<nat>>, cycles: seq<seq<nat>>, c: seq<nat>,
                  minLength: int, maxLength: int)
    requires Distinct(cycles) && AllAccepted(rs, cons, cycles, minLength, maxLength)
    requires Accepted(rs, cons, c, minLength, maxLength) && c !in cycles
    ensures Distinct(cycles + [c]) && AllAccepted(rs, cons, cycles + [c], minLength, maxLength)
  {
  }

  /** Recording the closed slice (when it is long enough and not yet
      recorded) keeps the recorded cycles distinct and acceptable, and
      completes the search at `id`, which cannot go further. */
  lemma RecordClosure(rs: seq<Recipe>, cons: map<string, seq<nat>>, path: seq<nat>, id: nat,
                      cycles: seq<seq<nat>>, found: seq<seq<nat>>, minLength: int, maxLength: int)
    requires Distinct(path) && IsWalk(rs, cons, path) && id in path && |path| <= maxLength
    requires Edge(rs, cons, path[|path| - 1], id)
    requires Distinct(cycles) && AllAccepted(rs, cons, cycles, minLength, maxLength)
    requires var cycle := path[IndexOf(path, id)..];
             if |cycle| < minLength then found == cycles
             else if Normalize(cycle) in cycles then found == cycles
             else found == cycles + [Normalize(cycle)]
    ensures cycles <= found && Distinct(found) && AllAccepted(rs, cons, found, minLength, maxLength)
    ensures Complete(rs, cons, path, id, found, minLength, maxLength)
  {
    NothingExtends(rs, cons, path, id, found, minLength, maxLength);
    var k := IndexOf(path, id);
    if minLength <= |path| - k {
      var n := Normalize(path[k..]);
      ClosureAccepted(rs, cons, path, id, minLength, maxLength);
      if n !in cycles {
        RecordNew(rs, cons, cycles, n, minLength, maxLength);
        assert found[|cycles|] == n;
      }
    }
  }

  /** The slice closed when the search meets `id` on the path may be returned. */
  lemma ClosureAccepted(rs: seq<Recipe>, cons: map<string, seq<nat>>, path: seq<nat>, id: nat,
                        minLength: int, maxLength: int)
    requires Distinct(path) && IsWalk(rs, cons, path) && id in path && |path| <= maxLength
    requires Edge(rs, cons, path[|path| - 1], id)
    requires minLength <= |path| - IndexOf(path, id)
    ensures Accepted(rs, cons, Normalize(path[IndexOf(path, id)..]), minLength, maxLength)
  {
    var k := IndexOf(path, id);
    SliceIsCycle(rs, cons, path, k);
    NormalizeSimpleCycle(rs, cons, path[k..]);
  }

  lemma PrefixKeeps<T>(a: seq<T>, b: seq<T>)
    requires a <= b
    ensures forall x | x in a :: x in b
  {
    forall x | x in a ensures x in b {
      var i :| 0 <= i < |a| && a[i] == x;
      assert b[i] == x;
    }
  }

  // ---------------------------------------------------------------------
  // The graph object
  // ---------------------------------------------------------------------

  class CraftingGraph {
    var recipes: seq<Recipe>
    var producers: map<string, seq<nat>>
    var consumers: map<string, seq<nat>>
    /** The records the graph was built from. */
    ghost var records: seq<RecipeRecord>

    ghost predicate Valid()
      reads this
    {
      && recipes == Numbered(records)
      && producers == ProducersOf(records)
      && consumers == ConsumersOf(records)
    }

    /** Builds the graph from records in order: ids 0, 1, … in that order. */
    constructor (data: seq<RecipeRecord>)
      ensures Valid() && records == data
      ensures |recipes| == |data|
      ensures forall i | 0 <= i < |data| ::
                recipes[i].id == i && recipes[i].inputs == data[i].inputs && recipes[i].output == data[i].output
    {
      recipes := [];
      producers := map[];
      consumers := map[];
      records := [];
      new;
      BuildGraph(data);
    }

    /** Appends each record as recipe `recipeId` and indexes its output and
        its consumable inputs under that id. */
    method BuildGraph(data: seq<RecipeRecord>)
      requires recipes == [] && producers == map[] && consumers == map[]
      modifies this
      ensures Valid() && records == data
    {
      var recipeId: nat := 0;
      while recipeId < |data|
        invariant recipeId <= |data|
        invariant recipes == Numbered(data[..recipeId])
        invariant producers == ProducersOf(data[..recipeId])
        invariant consumers == ConsumersOf(data[..recipeId])
      {
        var recipe := data[recipeId];
        NumberedSnoc(data, recipeId);
        ProducersSnoc(data, recipeId);
        ConsumersSnoc(data, recipeId);
        recipes := recipes + [Number(recipe, recipeId)];
        var outputName := recipe.output.name;
        producers := producers[outputName := Lookup(producers, outputName) + [recipeId]];
        ghost var consumersBefore := consumers;
        var j := 0;
        while j < |recipe.inputs|
          invariant j <= |recipe.inputs|
          invariant recipes == Numbered(data[..recipeId + 1])
          invariant producers == ProducersOf(data[..recipeId + 1])
          invariant consumers == AddConsumers(consumersBefore, recipe.inputs[..j], recipeId)
        {
          var inputItem := recipe.inputs[j];
          AddConsumersSnoc(consumersBefore, recipe.inputs, j, recipeId);
          if IsConsumable(inputItem) {
            consumers := consumers[inputItem.name := Lookup(consumers, inputItem.name) + [recipeId]];
          }
          j := j + 1;
        }
        assert recipe.inputs[..j] == recipe.inputs;
        recipeId := recipeId + 1;
      }
      assert data[..recipeId] == data;
      records := data;
    }

    /** Every consumer list holds only ids of recipes. */
    ghost predicate Closed()
      reads this
    {
      forall name, x | x in Lookup(consumers, name) :: x < |recipes|
    }

    lemma ValidClosed()
      requires Valid()
      ensures Closed()
    {
      forall name, x | x in Lookup(consumers, name) ensures x < |recipes| {
        ConsumerIdsInRange(records, name);
      }
    }

    /** One step of the search: `id` is reached with `path` behind it, and
        the cycles recorded so far are `cycles`. */
    method Dfs(id: nat, path: seq<nat>, cycles: seq<seq<nat>>, minLength: int, maxLength: int)
      returns (found: seq<seq<nat>>)
      requires Closed() && id < |recipes|
      requires Distinct(path) && IsWalk(recipes, consumers, path)
      requires path != [] ==> Edge(recipes, consumers, path[|path| - 1], id)
      requires path == [] || |path| <= maxLength
      requires Distinct(cycles) && AllAccepted(recipes, consumers, cycles, minLength, maxLength)
      ensures cycles <= found && Distinct(found) && AllAccepted(recipes, consumers, found, minLength, maxLength)
      ensures Complete(recipes, consumers, path, id, found, minLength, maxLength)
      decreases maxLength - |path|
    {
      if id in path {
        var cycleStart := IndexOf(path, id);
        var cycle := path[cycleStart..];
        if |cycle| < minLength {
          found := cycles;
        } else {
          var minIdx := IndexOf(cycle, Min(cycle));
          var normalized := cycle[minIdx..] + cycle[..minIdx];
          if normalized !in cycles {
            found := cycles + [normalized];
          } else {
            found := cycles;
          }
        }
        RecordClosure(recipes, consumers, path, id, cycles, found, minLength, maxLength);
        return;
      }
      if |path| >= maxLength {
        return cycles;
      }
      var extended := path + [id];
      var next := Lookup(consumers, recipes[id].output.name);
      found := cycles;
      var t := 0;
      while t < |next|
        invariant t <= |next|
        invariant cycles <= found && Distinct(found) && AllAccepted(recipes, consumers, found, minLength, maxLength)
        invariant Searched(recipes, consumers, extended, next, t, found, minLength, maxLength)
      {
        ghost var before := found;
        assert next[t] in Lookup(consumers, recipes[id].output.name);
        found := Dfs(next[t], extended, found, minLength, maxLength);
        SearchedGrows(recipes, consumers, extended, next, t, before, found, minLength, maxLength);
        t := t + 1;
      }
      ExtendComplete(recipes, consumers, path, id, found, minLength, maxLength);
    }

    /** All distinct normalized cycles whose length lies in
        `[minLength, maxLength]`: exactly the simple cycles of the graph in
        that range, each once, in normal form. */
    method FindAllCycles(maxLength: int, minLength: int) returns (cycles: seq<seq<nat>>)
      requires Valid()
      ensures Distinct(cycles)
      ensures forall c | c in cycles :: Accepted(recipes, consumers, c, minLength, maxLength)
      ensures forall c | IsSimpleCycle(recipes, consumers, c) && minLength <= |c| <= maxLength ::
                Normalize(c) in cycles
    {
      cycles := [];
      ValidClosed();
      var recipeId: nat := 0;
      while recipeId < |recipes|
        invariant recipeId <= |recipes|
        invariant Distinct(cycles) && AllAccepted(recipes, consumers, cycles, minLength, maxLength)
        invariant forall c | IsSimpleCycle(recipes, consumers, c) && minLength <= |c| <= maxLength
                    && Min(c) < recipeId :: Normalize(c) in cycles
      {
        ghost var before := cycles;
        cycles := Dfs(recipeId, [], cycles, minLength, maxLength);
        PrefixKeeps(before, cycles);
        assert ExtensionsRecorded(recipes, consumers, [], recipeId, cycles, minLength, maxLength);
        StartRecorded(recipes, consumers, recipeId, cycles, minLength, maxLength);
        recipeId := recipeId + 1;
      }
      forall c | IsSimpleCycle(recipes, consumers, c) && minLength <= |c| <= maxLength
        ensures Min(c) < |recipes|
      {
        CycleIdsInRange(recipes, consumers, c);
      }
    }
  }
}
