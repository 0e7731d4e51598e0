/** The append-only chain of exclusion inventories, and the tool that rebuilds it: deduplicate
    the registered and explicit inventories, keep the sealed order, append what is new. */
module ExclusionChain {
  import opened Sequences

  type Sha = nat

  /** `content` stands for the payload.  That equal digests mean equal payloads is checked by
      the tool, not assumed here. */
  datatype Inventory = Inventory(sha: Sha, development: bool, content: nat)

  // ---- Sequences of inventories ----

  predicate DistinctShas(values: seq<Inventory>) {
    forall i, j :: 0 <= i < j < |values| ==> values[i].sha != values[j].sha
  }

  /** Equal digests, equal payloads. */
  predicate Consistent(values: seq<Inventory>) {
    forall i, j :: 0 <= i < |values| && 0 <= j < |values| && values[i].sha == values[j].sha ==> values[i] == values[j]
  }

  /** The first occurrence of every value, in order. */
  function FirstOccurrences(values: seq<Inventory>): (kept: seq<Inventory>) {
    if values == [] then []
    else
      var kept := FirstOccurrences(values[..|values| - 1]);
      if values[|values| - 1] in kept then kept else kept + [values[|values| - 1]]
  }

  lemma {:induction false} FirstOccurrencesKeepsAll(values: seq<Inventory>)
    ensures Distinct(FirstOccurrences(values))
    ensures forall v :: v in FirstOccurrences(values) <==> v in values
  {
    if values != [] {
      var init, last := values[..|values| - 1], values[|values| - 1];
      FirstOccurrencesKeepsAll(init);
      assert values == init + [last];
    }
  }

  predicate NewAt(values: seq<Inventory>, i: int) { 0 <= i < |values| && values[i] !in values[..i] }

  /** `at` lists, in increasing order, where the values of `kept` occur for the first time. */
  ghost predicate Picks(values: seq<Inventory>, kept: seq<Inventory>, at: seq<int>) {
    && |at| == |kept|
    && (forall k :: 0 <= k < |at| ==> NewAt(values, at[k]) && kept[k] == values[at[k]])
    && (forall k, l :: 0 <= k < l < |at| ==> at[k] < at[l])
  }

  lemma PicksStay(init: seq<Inventory>, last: Inventory, kept: seq<Inventory>, at: seq<int>)
    requires Picks(init, kept, at)
    ensures Picks(init + [last], kept, at)
  {
    var values := init + [last];
    forall k | 0 <= k < |at| ensures NewAt(values, at[k]) && kept[k] == values[at[k]] {
      assert NewAt(init, at[k]);
      assert values[..at[k]] == init[..at[k]];
    }
  }

  lemma PicksLast(init: seq<Inventory>, last: Inventory, kept: seq<Inventory>, at: seq<int>)
    requires Picks(init, kept, at) && last !in init
    ensures Picks(init + [last], kept + [last], at + [|init|])
  {
    var values := init + [last];
    PicksStay(init, last, kept, at);
    assert values[..|init|] == init;
    assert NewAt(values, |init|);
    assert forall k :: 0 <= k < |at| ==> NewAt(init, at[k]);
  }

  /** The order of the input is kept. */
  lemma {:induction false} FirstOccurrencesKeepsOrder(values: seq<Inventory>) returns (at: seq<int>)
    ensures Picks(values, FirstOccurrences(values), at)
  {
    if values == [] {
      at := [];
    } else {
      var init, last := values[..|values| - 1], values[|values| - 1];
      assert values == init + [last];
      at := FirstOccurrencesKeepsOrder(init);
      FirstOccurrencesKeepsAll(init);
      PicksStay(init, last, FirstOccurrences(init), at);
      if last !in FirstOccurrences(init) {
        PicksLast(init, last, FirstOccurrences(init), at);
        at := at + [|init|];
      }
    }
  }

  lemma ConsistentExtends(before: seq<Inventory>, value: Inventory)
    requires Consistent(before)
    ensures Consistent(before + [value]) <==> forall v :: v in before && v.sha == value.sha ==> v == value
  {
    var after := before + [value];
    if Consistent(after) {
      forall v | v in before && v.sha == value.sha ensures v == value {
        var k :| 0 <= k < |before| && before[k] == v;
        assert after[k] == v && after[|before|] == value;
      }
    }
  }

  /** `_deduplicate_child_inventories`: refused exactly when one digest names two payloads. */
  method Deduplicate(values: seq<Inventory>) returns (result: Option<seq<Inventory>>)
    ensures result == if Consistent(values) then Some(FirstOccurrences(values)) else None
  {
    var ordered: seq<Inventory> := [];
    var bySha: map<Sha, Inventory> := map[];
    for i := 0 to |values|
      invariant Consistent(values[..i]) && ordered == FirstOccurrences(values[..i])
      invariant forall sha :: sha in bySha ==> bySha[sha] in values[..i] && bySha[sha].sha == sha
      invariant forall v :: v in values[..i] ==> v.sha in bySha && bySha[v.sha] == v
    {
      var value := values[i];
      assert values[..i + 1] == values[..i] + [value];
      FirstOccurrencesKeepsAll(values[..i]);
      ConsistentExtends(values[..i], value);
      if value.sha !in bySha {
        bySha := bySha[value.sha := value];
        ordered := ordered + [value];
      } else if bySha[value.sha] != value {
        return None;
      }
    }
    assert values[..|values|] == values;
    return Some(ordered);
  }

  // ---- Merging with the sealed chain ----

  function NotIn(values: seq<Inventory>, shas: set<Sha>): (rest: seq<Inventory>)
    ensures forall v :: v in rest <==> v in values && v.sha !in shas
  {
    if values == [] then []
    else
      var rest := NotIn(values[..|values| - 1], shas);
      assert values == values[..|values| - 1] + [values[|values| - 1]];
      if values[|values| - 1].sha in shas then rest else rest + [values[|values| - 1]]
  }

  predicate Contains(candidates: seq<Inventory>, existing: seq<Inventory>) {
    forall i :: 0 <= i < |existing| ==> existing[i] in candidates
  }

  function ShaSet(values: seq<Inventory>): set<Sha> { set v | v in values :: v.sha }

  function Merged(existing: seq<Inventory>, candidates: seq<Inventory>): seq<Inventory> {
    existing + NotIn(candidates, ShaSet(existing))
  }

  /** The dictionary of the candidates under their digests. */
  method BySha(candidates: seq<Inventory>) returns (bySha: map<Sha, Inventory>)
    ensures forall sha :: sha in bySha ==> bySha[sha] in candidates && bySha[sha].sha == sha
    ensures forall v :: v in candidates ==> v.sha in bySha
  {
    bySha := map[];
    for i := 0 to |candidates|
      invariant forall sha :: sha in bySha ==> bySha[sha] in candidates && bySha[sha].sha == sha
      invariant forall v :: v in candidates[..i] ==> v.sha in bySha
    {
      assert candidates[..i + 1] == candidates[..i] + [candidates[i]];
      bySha := bySha[candidates[i].sha := candidates[i]];
    }
    assert candidates[..|candidates|] == candidates;
  }

  /** `_merge_child_inventories_preserving_append_order`, on candidates that were deduplicated:
      refused exactly when a sealed inventory is missing or has changed. */
  method Merge(existing: seq<Inventory>, candidates: seq<Inventory>) returns (result: Option<seq<Inventory>>)
    requires Consistent(candidates)
    ensures result == if Contains(candidates, existing) then Some(Merged(existing, candidates)) else None
  {
    var candidatesBySha := BySha(candidates);
    var existingShas: set<Sha> := {};
    for i := 0 to |existing|
      invariant existingShas == ShaSet(existing[..i]) && Contains(candidates, existing[..i])
    {
      var child := existing[i];
      if child.sha !in candidatesBySha || candidatesBySha[child.sha] != child {
        MissingOrChanged(candidates, candidatesBySha, child);
        return None;
      }
      assert existing[..i + 1] == existing[..i] + [child];
      existingShas := existingShas + {child.sha};
    }
    assert existing[..|existing|] == existing;
    var ordered := existing;
    for i := 0 to |candidates|
      invariant ordered == existing + NotIn(candidates[..i], existingShas)
    {
      assert candidates[..i + 1][..i] == candidates[..i];
      if candidates[i].sha !in existingShas { ordered := ordered + [candidates[i]]; }
    }
    assert candidates[..|candidates|] == candidates;
    return Some(ordered);
  }

  lemma MissingOrChanged(candidates: seq<Inventory>, bySha: map<Sha, Inventory>, child: Inventory)
    requires Consistent(candidates)
    requires forall sha :: sha in bySha ==> bySha[sha] in candidates && bySha[sha].sha == sha
    requires forall v :: v in candidates ==> v.sha in bySha
    requires child.sha !in bySha || bySha[child.sha] != child
    ensures child !in candidates
  {
  }

  lemma {:induction false} NotInDistinct(values: seq<Inventory>, shas: set<Sha>)
    requires DistinctShas(values)
    ensures DistinctShas(NotIn(values, shas))
  {
    if values != [] {
      var init, last := values[..|values| - 1], values[|values| - 1];
      NotInDistinct(init, shas);
      var rest := NotIn(init, shas);
      forall k | 0 <= k < |rest| ensures rest[k].sha != last.sha {
        assert rest[k] in init;
        var i :| 0 <= i < |init| && init[i] == rest[k];
      }
    }
  }

  /** The merge keeps the sealed chain as a prefix, repeats nothing, and holds exactly the
      candidates. */
  lemma MergedIsTheRegistry(existing: seq<Inventory>, candidates: seq<Inventory>)
    requires DistinctShas(existing) && DistinctShas(candidates) && Contains(candidates, existing)
    ensures existing <= Merged(existing, candidates) && DistinctShas(Merged(existing, candidates))
    ensures forall v :: v in Merged(existing, candidates) <==> v in candidates
  {
    var merged, rest := Merged(existing, candidates), NotIn(candidates, ShaSet(existing));
    NotInDistinct(candidates, ShaSet(existing));
    forall i, j | 0 <= i < j < |merged| ensures merged[i].sha != merged[j].sha {
      if i < |existing| {
        if j >= |existing| {
          assert rest[j - |existing|] in rest && existing[i] in existing;
        }
      } else {
        assert merged[i] == rest[i - |existing|] && merged[j] == rest[j - |existing|];
      }
    }
    forall v ensures v in merged <==> v in candidates {
      if v in candidates && v.sha in ShaSet(existing) {
        var e :| e in existing && e.sha == v.sha;
        SameSha(candidates, e, v);
      }
    }
  }

  lemma SameSha(values: seq<Inventory>, a: Inventory, b: Inventory)
    requires DistinctShas(values) && a in values && b in values && a.sha == b.sha
    ensures a == b
  {
    var i :| 0 <= i < |values| && values[i] == a;
    var j :| 0 <= j < |values| && values[j] == b;
  }

  // ---- The store ----

  /** An index node's digest covers its child and the digest of the node before it, so a node
      stands for the list of children that leads up to it. */
  type Node = seq<Sha>

  datatype Store = Store(
    children: map<Sha, Inventory>,    // children/<digest>.json
    nodes: set<Node>,                 // nodes/<digest>.json
    anchors: seq<Sha>,                // the rows of the database
    head: Option<Node>)               // head.json

  const EMPTY := Store(map[], {}, [], None)

  function ShasOf(values: seq<Inventory>): (shas: seq<Sha>)
    ensures |shas| == |values| && forall i :: 0 <= i < |values| ==> shas[i] == values[i].sha
  {
    seq(|values|, i requires 0 <= i < |values| => values[i].sha)
  }

  function Prefixes(node: Node): set<Node> { set i | 0 < i <= |node| :: node[..i] }

  function Elements(node: Node): set<Sha> { set i | 0 <= i < |node| :: node[i] }

  /** `_load_chain` and the comparison with the database. */
  function LoadSealed(store: Store): Option<seq<Inventory>> {
    if store.head.None? then None
    else
      var chain := store.head.value;
      if chain == [] || store.nodes != Prefixes(chain) || store.anchors != chain || store.children.Keys != Elements(chain)
         || (exists sha :: sha in store.children && store.children[sha].sha != sha) then None
      else Some(seq(|chain|, i requires 0 <= i < |chain| => store.children[chain[i]]))
  }

  // ---- The walk from the first node to the tip ----

  predicate Follows(node: Node, previous: Node) { |node| == |previous| + 1 && node[..|previous|] == previous }

  /** Two nodes behind the same node, or two first nodes. */
  predicate Fork(nodes: set<Node>) {
    exists a, b :: a in nodes && b in nodes && a != b && |a| == |b| && |a| > 0 && a[..|a| - 1] == b[..|b| - 1]
  }

  lemma PrefixesDoNotFork(chain: Node)
    ensures !Fork(Prefixes(chain))
  {
  }

  /** A prefix of the chain that is not the whole of it has a follower among the nodes. */
  lemma PrefixHasFollower(chain: Node, node: Node)
    requires node in Prefixes(chain) && node != chain
    ensures chain[..|node| + 1] in Prefixes(chain) && Follows(chain[..|node| + 1], node)
  {
    var i :| 0 < i <= |chain| && node == chain[..i];
    assert chain[..|chain|] == chain;
    assert chain[..i + 1][..i] == node;
  }

  /** The index nodes form one chain exactly when they are the prefixes of their tip: no fork,
      one first node, and nothing the walk does not meet. */
  method WalkChain(nodes: set<Node>) returns (tip: Option<Node>)
    ensures tip.Some? ==> tip.value != [] && nodes == Prefixes(tip.value)
    ensures tip.None? ==> forall chain: Node | chain != [] :: nodes != Prefixes(chain)
  {
    if Fork(nodes) {
      ForkIsNoChain(nodes);
      return None;
    }
    if !exists node :: node in nodes && |node| == 1 {
      NoFirstIsNoChain(nodes);
      return None;
    }
    var current :| current in nodes && |current| == 1;
    var visited := {current};
    assert current[..1] == current;
    while exists node :: node in nodes && Follows(node, current)
      invariant current in nodes && current != [] && visited == Prefixes(current) && visited <= nodes
      decreases |nodes - visited|
    {
      var next :| next in nodes && Follows(next, current);
      WalkOn(nodes, visited, current, next);
      visited := visited + {next};
      current := next;
    }
    if visited != nodes {
      StoppedShort(nodes, current);
      return None;
    }
    return Some(current);
  }

  lemma ForkIsNoChain(nodes: set<Node>)
    requires Fork(nodes)
    ensures forall chain: Node :: nodes != Prefixes(chain)
  {
    forall chain: Node ensures nodes != Prefixes(chain) {
      PrefixesDoNotFork(chain);
    }
  }

  lemma NoFirstIsNoChain(nodes: set<Node>)
    requires !exists node :: node in nodes && |node| == 1
    ensures forall chain: Node | chain != [] :: nodes != Prefixes(chain)
  {
    forall chain: Node | chain != [] ensures nodes != Prefixes(chain) {
      assert chain[..1] in Prefixes(chain);
    }
  }

  lemma WalkOn(nodes: set<Node>, visited: set<Node>, current: Node, next: Node)
    requires visited == Prefixes(current) && next in nodes && Follows(next, current)
    ensures visited + {next} == Prefixes(next) && |nodes - (visited + {next})| < |nodes - visited|
  {
    assert next == current + [next[|current|]];
    PrefixesGrow(current, next[|current|]);
    LongerIsNew(current, next);
    Fewer(nodes, visited, next);
  }

  lemma StoppedShort(nodes: set<Node>, current: Node)
    requires current in nodes && nodes != Prefixes(current) && !exists node :: node in nodes && Follows(node, current)
    ensures forall chain: Node :: nodes != Prefixes(chain)
  {
    forall chain: Node ensures nodes != Prefixes(chain) {
      if current in Prefixes(chain) && current != chain { PrefixHasFollower(chain, current); }
    }
  }

  lemma LongerIsNew(node: Node, longer: Node)
    requires |longer| > |node|
    ensures longer !in Prefixes(node)
  {
  }

  lemma Fewer(nodes: set<Node>, visited: set<Node>, next: Node)
    requires next in nodes && next !in visited
    ensures |nodes - (visited + {next})| < |nodes - visited|
  {
    assert nodes - visited == (nodes - (visited + {next})) + {next};
  }

  /** `_load_chain` as it is computed: walk the nodes, compare the tip with the head, the rows
      and the child files. */
  method LoadChain(store: Store) returns (loaded: Option<seq<Inventory>>)
    ensures loaded == LoadSealed(store)
  {
    if store.head.None? { return None; }
    var tip := WalkChain(store.nodes);
    if tip.None? { return None; }
    if tip.value != store.head.value {
      TipIsUnique(tip.value, store.head.value);
      return None;
    }
    var chain := tip.value;
    if store.anchors != chain || store.children.Keys != Elements(chain)
       || (exists sha :: sha in store.children && store.children[sha].sha != sha) {
      return None;
    }
    return Some(seq(|chain|, i requires 0 <= i < |chain| => store.children[chain[i]]));
  }

  lemma TipIsPrefix(a: Node, b: Node)
    requires a != []
    ensures a in Prefixes(a) && (|a| >= |b| && a != b ==> a !in Prefixes(b))
  {
    assert a == a[..|a|] && b == b[..|b|];
  }

  lemma TipIsUnique(a: Node, b: Node)
    requires a != b && a != []
    ensures b == [] || Prefixes(a) != Prefixes(b)
  {
    TipIsPrefix(a, b);
    if b != [] { TipIsPrefix(b, a); }
  }

  function ChildrenOf(chain: seq<Inventory>): map<Sha, Inventory> {
    if chain == [] then map[] else ChildrenOf(chain[..|chain| - 1])[chain[|chain| - 1].sha := chain[|chain| - 1]]
  }

  lemma {:induction false} ChildrenAreNamed(chain: seq<Inventory>)
    requires DistinctShas(chain)
    ensures ChildrenOf(chain).Keys == Elements(ShasOf(chain))
    ensures forall i :: 0 <= i < |chain| ==> chain[i].sha in ChildrenOf(chain) && ChildrenOf(chain)[chain[i].sha] == chain[i]
  {
    if chain != [] {
      var init, last := chain[..|chain| - 1], chain[|chain| - 1];
      ChildrenAreNamed(init);
      assert ShasOf(chain) == ShasOf(init) + [last.sha];
      PrefixesGrow(ShasOf(init), last.sha);
    }
  }

  /** The store that holds exactly this chain. */
  function StoreOf(chain: seq<Inventory>): Store {
    if chain == [] then EMPTY
    else Store(ChildrenOf(chain), Prefixes(ShasOf(chain)), ShasOf(chain), Some(ShasOf(chain)))
  }

  lemma StoreOfLoads(chain: seq<Inventory>)
    requires DistinctShas(chain) && chain != []
    ensures LoadSealed(StoreOf(chain)) == Some(chain)
  {
    ChildrenAreNamed(chain);
    var store := StoreOf(chain);
    forall sha | sha in store.children ensures store.children[sha].sha == sha {
      var i :| 0 <= i < |chain| && ShasOf(chain)[i] == sha;
    }
    assert LoadSealed(store).Some?;
    assert LoadSealed(store).value == chain;
  }

  /** What a store loads as determines the store. */
  lemma LoadedIsWhole(store: Store)
    requires LoadSealed(store).Some? && DistinctShas(LoadSealed(store).value)
    ensures LoadSealed(store).value != [] && store == StoreOf(LoadSealed(store).value)
  {
    var chain := LoadSealed(store).value;
    ChildrenAreNamed(chain);
    assert ShasOf(chain) == store.head.value;
    forall sha | sha in store.children ensures store.children[sha] == ChildrenOf(chain)[sha] {
      var i :| 0 <= i < |chain| && store.head.value[i] == sha;
    }
    assert store.children == ChildrenOf(chain);
  }

  lemma PrefixesGrow(node: Node, sha: Sha)
    ensures Prefixes(node + [sha]) == Prefixes(node) + {node + [sha]}
    ensures Elements(node + [sha]) == Elements(node) + {sha}
  {
    var longer := node + [sha];
    assert longer[..|longer|] == longer;
    forall i | 0 < i <= |node| ensures longer[..i] == node[..i] {
    }
    forall p | p in Prefixes(node) ensures p in Prefixes(longer) {
      var i :| 0 < i <= |node| && p == node[..i];
      assert longer[..i] == p;
    }
    forall e | e in Elements(node) ensures e in Elements(longer) {
      var i :| 0 <= i < |node| && e == node[i];
      assert longer[i] == e;
    }
    assert longer[|node|] == sha;
  }

  // ---- Appending ----

  /** The four writes of an append in their order: child file, node file, database row, head. */
  function AfterWrites(store: Store, chain: Node, child: Inventory, writes: nat): Store {
    var s1 := if writes < 1 then store else store.(children := store.children[child.sha := child]);
    var s2 := if writes < 2 then s1 else s1.(nodes := s1.nodes + {chain + [child.sha]});
    var s3 := if writes < 3 then s2 else s2.(anchors := s2.anchors + [child.sha]);
    if writes < 4 then s3 else s3.(head := Some(chain + [child.sha]))
  }

  /** `store` afterwards; whether the call returned; how many writes the process may still do
      before it is killed. */
  datatype Outcome = Outcome(store: Store, returned: bool, budget: nat)

  function AppendTo(store: Store, child: Inventory, budget: nat): Outcome {
    var loaded := LoadSealed(store);
    if (store.head.Some? && loaded.None?) || (store.head.None? && store != EMPTY) then Outcome(store, false, budget)
    else if loaded.Some? && child.sha in Elements(ShasOf(loaded.value)) then Outcome(store, true, budget)
    else
      var chain := if store.head.Some? then store.head.value else [];
      if budget < 4 then Outcome(AfterWrites(store, chain, child, budget), false, 0)
      else Outcome(AfterWrites(store, chain, child, 4), true, budget - 4)
  }

  /** The store holds a chain without repetitions, or nothing at all. */
  ghost predicate Whole(store: Store) {
    store == EMPTY || (LoadSealed(store).Some? && DistinctShas(LoadSealed(store).value))
  }

  function ChainOf(store: Store): seq<Inventory> {
    if LoadSealed(store).Some? then LoadSealed(store).value else []
  }

  lemma NewIsDistinct(chain: seq<Inventory>, child: Inventory)
    requires DistinctShas(chain) && child.sha !in Elements(ShasOf(chain))
    ensures DistinctShas(chain + [child])
  {
    forall i | 0 <= i < |chain| ensures chain[i].sha != child.sha {
      assert ShasOf(chain)[i] == chain[i].sha;
    }
  }

  lemma AppendStores(store: Store, child: Inventory, budget: nat)
    requires Whole(store) && child.sha !in Elements(ShasOf(ChainOf(store))) && budget >= 4
    ensures AppendTo(store, child, budget).returned
    ensures AppendTo(store, child, budget).store == StoreOf(ChainOf(store) + [child])
  {
    var chain := ChainOf(store);
    if store != EMPTY { LoadedIsWhole(store); }
    WritesComplete(store, chain, child);
    assert ShasOf(chain) == if store.head.Some? then store.head.value else [];
  }

  /** A finished append adds the child at the end, unless it is there already. */
  lemma AppendExtends(store: Store, child: Inventory, budget: nat)
    requires Whole(store) && (child.sha in Elements(ShasOf(ChainOf(store))) || budget >= 4)
    ensures var out := AppendTo(store, child, budget);
      && out.returned && Whole(out.store)
      && ChainOf(out.store) == if child.sha in Elements(ShasOf(ChainOf(store))) then ChainOf(store) else ChainOf(store) + [child]
  {
    if child.sha !in Elements(ShasOf(ChainOf(store))) {
      NewIsDistinct(ChainOf(store), child);
      AppendStores(store, child, budget);
      StoreOfLoads(ChainOf(store) + [child]);
    }
  }

  lemma WritesComplete(store: Store, chain: seq<Inventory>, child: Inventory)
    requires store == StoreOf(chain)
    ensures AfterWrites(store, ShasOf(chain), child, 4) == StoreOf(chain + [child])
  {
    var longer := chain + [child];
    assert longer[..|longer| - 1] == chain;
    assert ShasOf(longer) == ShasOf(chain) + [child.sha];
    PrefixesGrow(ShasOf(chain), child.sha);
    assert Prefixes([]) == {};
  }

  // ---- An interrupted append is for good ----

  /** Appends are refused from then on, whoever makes them. */
  ghost predicate Stuck(store: Store) { store != EMPTY && LoadSealed(store).None? }

  lemma StuckStays(store: Store, child: Inventory, budget: nat)
    ensures Stuck(store) ==> AppendTo(store, child, budget) == Outcome(store, false, budget)
    ensures !Stuck(store) && budget >= 4 ==> AppendTo(store, child, budget).returned
  {
  }

  /** A new child's append that is cut short leaves the store stuck exactly when it had begun
      to write: there is no write after which a later run could go on. */
  lemma InterruptionSticksExactly(store: Store, child: Inventory, writes: nat)
    requires Whole(store) && child.sha !in Elements(ShasOf(ChainOf(store))) && writes < 4
    ensures AppendTo(store, child, writes).store == store || Stuck(AppendTo(store, child, writes).store)
    ensures Stuck(AppendTo(store, child, writes).store) <==> writes > 0
  {
    if store != EMPTY { LoadedIsWhole(store); }
    var chain := ChainOf(store);
    if writes > 0 {
      var after := AppendTo(store, child, writes).store;
      assert child.sha in after.children;
      assert ShasOf(chain) == if store.head.Some? then store.head.value else [];
    }
  }

  // ---- The tool ----

  /** What the registries hold: the inventories of the development kind are the registered ones. */
  predicate RegistryMatches(children: seq<Inventory>, registry: seq<Inventory>) {
    && (forall v :: v in children && v.development ==> v in registry)
    && (forall v :: v in registry ==> v in children && v.development)
  }

  /** The children a rebuild would append, if nothing refuses it. */
  function Plan(store: Store, registry: seq<Inventory>, explicit: seq<Inventory>): Option<seq<Inventory>> {
    var candidates := FirstOccurrences(registry + explicit);
    if !Consistent(registry + explicit) || !RegistryMatches(candidates, registry) then None
    else if store != EMPTY && LoadSealed(store).None? then None
    else if !Contains(candidates, ChainOf(store)) || candidates == [] then None
    else Some(Merged(ChainOf(store), candidates))
  }

  lemma DistinctAndConsistent(values: seq<Inventory>)
    requires Consistent(values)
    ensures DistinctShas(FirstOccurrences(values)) && Consistent(FirstOccurrences(values))
  {
    var kept := FirstOccurrences(values);
    FirstOccurrencesKeepsAll(values);
    forall i, j | 0 <= i < |kept| && 0 <= j < |kept| && kept[i].sha == kept[j].sha ensures kept[i] == kept[j] {
      assert kept[i] in values && kept[j] in values;
      var a :| 0 <= a < |values| && values[a] == kept[i];
      var b :| 0 <= b < |values| && values[b] == kept[j];
    }
  }

  /** What the plan is: the sealed chain first, then whatever else was given, each once; its
      development children are exactly the registered ones. */
  lemma PlanIsTheRegistry(store: Store, registry: seq<Inventory>, explicit: seq<Inventory>)
    requires Whole(store) && Plan(store, registry, explicit).Some?
    ensures var plan := Plan(store, registry, explicit).value;
      && ChainOf(store) <= plan && DistinctShas(plan) && plan != []
      && (forall v :: v in plan <==> v in registry || v in explicit)
      && (forall v :: v in plan && v.development <==> v in registry)
  {
    var candidates := FirstOccurrences(registry + explicit);
    DistinctAndConsistent(registry + explicit);
    FirstOccurrencesKeepsAll(registry + explicit);
    MergedIsTheRegistry(ChainOf(store), candidates);
  }

  class AuthorityStore {
    var store: Store

    constructor (initial: Store)
      ensures store == initial
    {
      store := initial;
    }

    /** `append_loop9_exclusion_child`, in a process that is killed after `budget` more writes. */
    method Append(child: Inventory, budget: nat) returns (returned: bool, left: nat)
      modifies this
      ensures AppendTo(old(store), child, budget) == Outcome(store, returned, left)
    {
      var chain: Node := [];
      if store.head.Some? {
        var loaded := LoadChain(store);
        if loaded.None? { return false, budget; }
        var i := 0;
        while i < |loaded.value|
          invariant 0 <= i <= |loaded.value| && store == old(store)
          invariant child.sha !in Elements(ShasOf(loaded.value)[..i])
        {
          assert ShasOf(loaded.value)[..i + 1] == ShasOf(loaded.value)[..i] + [ShasOf(loaded.value)[i]];
          PrefixesGrow(ShasOf(loaded.value)[..i], ShasOf(loaded.value)[i]);
          if loaded.value[i].sha == child.sha {
            assert ShasOf(loaded.value)[i] in Elements(ShasOf(loaded.value));
            return true, budget;
          }
          i := i + 1;
        }
        assert ShasOf(loaded.value)[..i] == ShasOf(loaded.value);
        chain := store.head.value;
      } else if store != EMPTY {
        return false, budget;
      }
      var node := chain + [child.sha];
      if budget == 0 { return false, 0; }
      store := store.(children := store.children[child.sha := child]);
      if budget == 1 { return false, 0; }
      store := store.(nodes := store.nodes + {node});
      if budget == 2 { return false, 0; }
      store := store.(anchors := store.anchors + [child.sha]);
      if budget == 3 { return false, 0; }
      store := store.(head := Some(node));
      return true, budget - 4;
    }

    /** `main`: refused before the first write, or the planned chain is built child by child;
        a process killed on the way leaves the old chain extended, or a stuck store. */
    method Rebuild(registry: seq<Inventory>, explicit: seq<Inventory>, budget: nat) returns (ok: bool)
      requires DistinctShas(ChainOf(store))
      modifies this
      ensures Plan(old(store), registry, explicit).None? ==> !ok && store == old(store)
      ensures Plan(old(store), registry, explicit).Some? ==>
                var plan := Plan(old(store), registry, explicit).value;
                && (ok ==> Whole(store) && ChainOf(store) == plan)
                && (budget >= 4 * (|plan| - |ChainOf(old(store))|) ==> ok)
                && (Stuck(store) || (ChainOf(old(store)) <= ChainOf(store) && ChainOf(store) <= plan))
    {
      var unique := Deduplicate(registry + explicit);
      if unique.None? || !RegistryMatches(unique.value, registry) { return false; }
      var ordered := unique;
      DistinctAndConsistent(registry + explicit);
      if store.head.Some? {
        var existing := LoadChain(store);
        if existing.None? { return false; }
        ordered := Merge(existing.value, unique.value);
        if ordered.None? { return false; }
        LoadedIsWhole(store);
        assert existing.value[0] in unique.value;
      } else {
        assert Merged([], unique.value) == unique.value by { NothingMerged(unique.value); }
      }
      if ordered.value == [] { return false; }
      if !Stuck(store) { PlanIsTheRegistry(store, registry, explicit); }
      ok := AppendAll(ordered.value, budget);
    }

    method AppendAll(plan: seq<Inventory>, budget: nat) returns (ok: bool)
      requires plan != [] && (Stuck(store) || (Whole(store) && DistinctShas(plan) && ChainOf(store) <= plan))
      modifies this
      ensures ok ==> Whole(store) && ChainOf(store) == plan
      ensures old(Stuck(store)) ==> !ok && store == old(store)
      ensures !old(Stuck(store)) && budget >= 4 * (|plan| - |ChainOf(old(store))|) ==> ok
      ensures Stuck(store) || (ChainOf(old(store)) <= ChainOf(store) && ChainOf(store) <= plan)
    {
      var left := budget;
      ghost var start := |ChainOf(store)|;
      for i := 0 to |plan|
        invariant old(Stuck(store)) ==> i == 0 && store == old(store)
        invariant !old(Stuck(store)) ==>
                    Whole(store) && ChainOf(store) == plan[..if i < start then start else i]
                    && left == budget - 4 * (|ChainOf(store)| - start)
      {
        StuckStays(store, plan[i], left);
        if !Stuck(store) { AppendNext(store, plan, i, left); }
        var returned: bool;
        returned, left := Append(plan[i], left);
        if !returned { return false; }
      }
      return true;
    }
  }

  lemma {:induction false} NothingMerged(values: seq<Inventory>)
    ensures NotIn(values, {}) == values && ShaSet([]) == {}
  {
    if values != [] {
      NothingMerged(values[..|values| - 1]);
      assert values == values[..|values| - 1] + [values[|values| - 1]];
    }
  }

  /** The next child of a plan: found where the chain has it, added where the chain ends. */
  lemma AppendNext(store: Store, plan: seq<Inventory>, i: nat, budget: nat)
    requires Whole(store) && DistinctShas(plan) && ChainOf(store) <= plan && i < |plan| && i <= |ChainOf(store)|
    ensures var out := AppendTo(store, plan[i], budget);
      && (i < |ChainOf(store)| ==> out == Outcome(store, true, budget))
      && (i == |ChainOf(store)| && budget >= 4 ==>
          out.returned && Whole(out.store) && ChainOf(out.store) == plan[..i + 1] && out.budget == budget - 4)
      && (i == |ChainOf(store)| && budget < 4 ==> !out.returned && (out.store == store || Stuck(out.store)))
  {
    var chain := ChainOf(store);
    if i < |chain| {
      assert ShasOf(chain)[i] == plan[i].sha;
      AppendExtends(store, plan[i], budget);
    } else {
      forall k | 0 <= k < |chain| ensures ShasOf(chain)[k] != plan[i].sha {
        assert chain[k] == plan[k];
      }
      assert plan[i].sha !in Elements(ShasOf(chain));
      if budget >= 4 {
        AppendExtends(store, plan[i], budget);
        assert plan[..i + 1] == chain + [plan[i]];
      } else {
        InterruptionSticksExactly(store, plan[i], budget);
      }
    }
  }
}
