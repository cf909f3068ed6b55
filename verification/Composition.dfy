/**
 Expanding a product into its components. Composition rules name component products,
 whose own rules are expanded in turn; every requirement created for a booking item comes
 from one proposal of this tree.
 */
module Composition {
  import opened Common

  const MAX_DEPTH := 5

  datatype Role = REQUIRED_COMPONENT | OPTIONAL_ADDON | OTHER

  /** A rule of one parent product. `included` components cost nothing extra. */
  datatype Rule = Rule(role: Role, quantity: int, defaultSelected: bool, included: bool, priceAdjustment: int)

  /** What the product tables make of a rule, for a given SKU of its parent. */
  datatype Resolution = Unresolved | Rejected | Resolved(product: nat, sku: nat, alternativePrice: int)

  /**
   The active rules of each product in display order, by id, and how they resolve.
   `selections` holds the customer's choices: the quantity chosen for a rule, if any.
   */
  datatype Setup = Setup(rulesOf: nat -> seq<nat>, rule: nat -> Rule, resolve: (nat, nat) -> Resolution,
                         selections: map<nat, Option<int>>)

  /** The path of rule ids from the main product; the main product itself has the empty path. */
  type Key = seq<nat>

  datatype Proposal = Proposal(key: Key, parent: Option<Key>, product: nat, sku: nat, quantity: int, priceAdjustment: int)

  datatype Reason = TooDeep | ComponentUnresolved | SelectionRejected | Cycle | QuantityOutOfRange | UnknownSelection

  type Outcome<T> = Result<T, Reason>

  predicate Skipped(s: Setup, id: nat) {
    s.rule(id).role == OPTIONAL_ADDON && id !in s.selections && !s.rule(id).defaultSelected
  }

  function PerParent(s: Setup, id: nat): int {
    if s.rule(id).role == OPTIONAL_ADDON && id in s.selections && s.selections[id].Some? && s.selections[id].value != 0
    then s.selections[id].value else s.rule(id).quantity
  }

  function Component(s: Setup, id: nat, r: Resolution, parentKey: Key, parentQuantity: int): Proposal
    requires r.Resolved?
  {
    var quantity := parentQuantity * PerParent(s, id);
    Proposal(parentKey + [id], Some(parentKey), r.product, r.sku, quantity,
             if s.rule(id).included then 0 else (s.rule(id).priceAdjustment + r.alternativePrice) * quantity)
  }

  /** The components of one product. */
  function ExpandProduct(s: Setup, product: nat, sku: nat, quantity: int, key: Key, path: set<nat>, depth: nat): Outcome<seq<Proposal>>
    requires depth <= MAX_DEPTH
    decreases MAX_DEPTH - depth, |s.rulesOf(product)| + 1
  {
    if depth >= MAX_DEPTH then
      if s.rulesOf(product) != [] then Refused(TooDeep) else Ok([])
    else ExpandRules(s, s.rulesOf(product), sku, quantity, key, path, depth)
  }

  function ExpandRules(s: Setup, ids: seq<nat>, sku: nat, quantity: int, key: Key, path: set<nat>, depth: nat): Outcome<seq<Proposal>>
    requires depth < MAX_DEPTH
    decreases MAX_DEPTH - depth, |ids|
  {
    if ids == [] then Ok([])
    else
      var last := ids[|ids| - 1];
      match ExpandRules(s, ids[..|ids| - 1], sku, quantity, key, path, depth)
      case Refused(why) => Refused(why)
      case Ok(before) =>
        match ExpandRule(s, last, sku, quantity, key, path, depth)
        case Refused(why) => Refused(why)
        case Ok(mine) => Ok(before + mine)
  }

  /** One rule: its component and everything below it. */
  function ExpandRule(s: Setup, id: nat, sku: nat, quantity: int, key: Key, path: set<nat>, depth: nat): Outcome<seq<Proposal>>
    requires depth < MAX_DEPTH
    decreases MAX_DEPTH - depth, 0
  {
    if Skipped(s, id) then Ok([])
    else
      var r := s.resolve(id, sku);
      if r.Rejected? then Refused(SelectionRejected)
      else if r.Unresolved? then
        if s.rule(id).role == REQUIRED_COMPONENT then Refused(ComponentUnresolved) else Ok([])
      else if r.product in path then Refused(Cycle)
      else if PerParent(s, id) < 1 || PerParent(s, id) > 100 then Refused(QuantityOutOfRange)
      else
        var p := Component(s, id, r, key, quantity);
        match ExpandProduct(s, r.product, r.sku, p.quantity, p.key, path + {r.product}, depth + 1)
        case Refused(why) => Refused(why)
        case Ok(below) => Ok([p] + below)
  }

  function Main(product: nat, sku: nat, quantity: int): Proposal {
    Proposal([], None, product, sku, quantity, 0)
  }

  predicate KnownRule(ps: seq<Proposal>, id: nat) {
    exists p | p in ps :: p.key != [] && p.key[|p.key| - 1] == id
  }

  function Expand(s: Setup, product: nat, sku: nat, quantity: int): Outcome<seq<Proposal>> {
    match ExpandProduct(s, product, sku, quantity, [], {product}, 0)
    case Refused(why) => Refused(why)
    case Ok(below) =>
      var ps := [Main(product, sku, quantity)] + below;
      if exists id | id in s.selections :: !KnownRule(ps, id) then Refused(UnknownSelection) else Ok(ps)
  }

  // ------------------------------------------------------------------ Well-formed trees

  /** How many pieces the rules on a path multiply to. */
  function Factor(s: Setup, path: Key): int {
    if path == [] then 1 else Factor(s, path[..|path| - 1]) * PerParent(s, path[|path| - 1])
  }

  /** A proposal below the node with key `root`, whose ancestors are `path`. */
  ghost predicate Below(s: Setup, p: Proposal, root: Key, quantity: int, path: set<nat>) {
    && root < p.key && |p.key| <= MAX_DEPTH
    && p.parent == Some(p.key[..|p.key| - 1])
    && p.product !in path
    && p.quantity == quantity * Factor(s, p.key[|root|..])
  }

  /** The parent of the proposal at `i` is the root or comes before it. */
  ghost predicate ParentFirst(ps: seq<Proposal>, i: nat, root: Key)
    requires i < |ps|
  {
    ps[i].parent == Some(root) || exists j :: 0 <= j < i && ps[i].parent == Some(ps[j].key)
  }

  ghost predicate Tree(s: Setup, ps: seq<Proposal>, root: Key, quantity: int, path: set<nat>) {
    && (forall i :: 0 <= i < |ps| ==> Below(s, ps[i], root, quantity, path))
    && (forall i :: 0 <= i < |ps| ==> ParentFirst(ps, i, root))
    && (forall i, j :: 0 <= i < j < |ps| ==> ps[i].key != ps[j].key)
    && (forall i, j :: 0 <= i < |ps| && 0 <= j < |ps| && ps[i].key < ps[j].key ==> ps[i].product != ps[j].product)
  }

  /** Every key of `ps` continues `root` with one of `ids`. */
  ghost predicate Heads(ps: seq<Proposal>, root: Key, ids: set<nat>) {
    forall i :: 0 <= i < |ps| ==> root < ps[i].key && ps[i].key[|root|] in ids
  }

  lemma {:induction false} FactorSplit(s: Setup, a: Key, b: Key)
    ensures Factor(s, a + b) == Factor(s, a) * Factor(s, b)
  {
    if b == [] {
      assert a + b == a;
    } else {
      var n := |b| - 1;
      FactorSplit(s, a, b[..n]);
      assert (a + b)[..|a + b| - 1] == a + b[..n];
      Associate(Factor(s, a), Factor(s, b[..n]), PerParent(s, b[n]));
    }
  }

  lemma Associate(x: int, y: int, z: int)
    ensures x * y * z == x * (y * z)
  {
  }

  /** Rule ids are distinct within each product. */
  ghost predicate UniqueRules(s: Setup) {
    forall p: nat, i, j :: 0 <= i < j < |s.rulesOf(p)| ==> s.rulesOf(p)[i] != s.rulesOf(p)[j]
  }

  /** Putting proposals in front or behind keeps parents before their components. */
  lemma ParentFirstWithin(before: seq<Proposal>, ps: seq<Proposal>, after: seq<Proposal>, i: nat, root: Key)
    requires i < |ps| && ParentFirst(ps, i, root)
    ensures ParentFirst(before + ps + after, |before| + i, root)
  {
    var all := before + ps + after;
    assert all[|before| + i] == ps[i];
    if ps[i].parent != Some(root) {
      var j :| 0 <= j < i && ps[i].parent == Some(ps[j].key);
      assert all[|before| + j] == ps[j];
    }
  }

  /** Trees under different rules of one product stand side by side. */
  lemma SideBySide(s: Setup, a: seq<Proposal>, b: seq<Proposal>, root: Key, quantity: int, path: set<nat>, ids: set<nat>, id: nat)
    requires Tree(s, a, root, quantity, path) && Heads(a, root, ids)
    requires Tree(s, b, root, quantity, path) && Heads(b, root, {id}) && id !in ids
    ensures Tree(s, a + b, root, quantity, path) && Heads(a + b, root, ids + {id})
  {
    hide Below;
    var ps := a + b;
    forall i | 0 <= i < |ps| ensures ParentFirst(ps, i, root) {
      if i < |a| {
        ParentFirstWithin([], a, b, i, root);
        assert [] + a + b == ps;
      } else {
        ParentFirstWithin(a, b, [], i - |a|, root);
        assert a + b + [] == ps;
      }
    }
    hide ParentFirst;
    assert forall i :: 0 <= i < |ps| ==> root < ps[i].key && (ps[i].key[|root|] == id <==> i >= |a|);
  }

  /** A component on top of its own tree. */
  lemma OnTop(s: Setup, p: Proposal, below: seq<Proposal>, root: Key, quantity: int, path: set<nat>, id: nat)
    requires p.key == root + [id] && p.parent == Some(root) && |p.key| <= MAX_DEPTH
    requires p.product !in path && p.quantity == quantity * PerParent(s, id)
    requires Tree(s, below, p.key, p.quantity, path + {p.product})
    ensures Tree(s, [p] + below, root, quantity, path) && Heads([p] + below, root, {id})
  {
    var ps := [p] + below;
    OneFactor(s, id);
    assert p.key[|root|..] == [id];
    assert Below(s, p, root, quantity, path);
    forall i | 0 < i < |ps|
      ensures Below(s, ps[i], root, quantity, path) && ps[i].key[|root|] == id && p.key < ps[i].key && ps[i].product != p.product
    {
      assert Below(s, below[i - 1], p.key, p.quantity, path + {p.product});
      BelowTop(s, p, below[i - 1], root, quantity, path, id);
    }
    forall i | 0 <= i < |ps| ensures ParentFirst(ps, i, root) {
      if i > 0 { ParentFirstUnder(p, below, i - 1, root); }
    }
    hide Below, ParentFirst;
  }

  lemma ParentFirstUnder(p: Proposal, below: seq<Proposal>, i: nat, root: Key)
    requires i < |below| && ParentFirst(below, i, p.key)
    ensures ParentFirst([p] + below, i + 1, root)
  {
    var ps := [p] + below;
    if below[i].parent == Some(p.key) {
      assert ps[0].key == p.key;
    } else {
      var j :| 0 <= j < i && below[i].parent == Some(below[j].key);
      assert ps[j + 1] == below[j];
    }
  }

  lemma OneFactor(s: Setup, id: nat)
    ensures Factor(s, [id]) == PerParent(s, id)
  {
    assert Factor(s, [id][..0]) == 1;
  }

  lemma BelowTop(s: Setup, p: Proposal, q: Proposal, root: Key, quantity: int, path: set<nat>, id: nat)
    requires p.key == root + [id] && p.quantity == quantity * PerParent(s, id)
    requires Below(s, q, p.key, p.quantity, path + {p.product})
    ensures Below(s, q, root, quantity, path) && q.key[|root|] == id
  {
    var rest := q.key[|p.key|..];
    assert q.key[|root|..] == [id] + rest;
    FactorSplit(s, [id], rest);
    OneFactor(s, id);
    Associate(quantity, PerParent(s, id), Factor(s, rest));
  }

  lemma {:induction false} ProductTree(s: Setup, product: nat, sku: nat, quantity: int, key: Key, path: set<nat>, depth: nat)
    requires UniqueRules(s) && depth == |key| <= MAX_DEPTH
    requires ExpandProduct(s, product, sku, quantity, key, path, depth).Ok?
    ensures Tree(s, ExpandProduct(s, product, sku, quantity, key, path, depth).value, key, quantity, path)
    decreases MAX_DEPTH - depth, |s.rulesOf(product)| + 1
  {
    if depth < MAX_DEPTH {
      RulesTree(s, s.rulesOf(product), sku, quantity, key, path, depth);
    }
  }

  lemma {:induction false} RulesTree(s: Setup, ids: seq<nat>, sku: nat, quantity: int, key: Key, path: set<nat>, depth: nat)
    requires UniqueRules(s) && depth == |key| < MAX_DEPTH
    requires forall i, j :: 0 <= i < j < |ids| ==> ids[i] != ids[j]
    requires ExpandRules(s, ids, sku, quantity, key, path, depth).Ok?
    ensures var ps := ExpandRules(s, ids, sku, quantity, key, path, depth).value;
            Tree(s, ps, key, quantity, path) && Heads(ps, key, ToSet(ids))
    decreases MAX_DEPTH - depth, |ids|
  {
    if ids != [] {
      var n := |ids| - 1;
      RulesTree(s, ids[..n], sku, quantity, key, path, depth);
      RuleTree(s, ids[n], sku, quantity, key, path, depth);
      assert ToSet(ids) == ToSet(ids[..n]) + {ids[n]};
      hide Tree, Heads, ExpandRule;
      SideBySide(s, ExpandRules(s, ids[..n], sku, quantity, key, path, depth).value,
                 ExpandRule(s, ids[n], sku, quantity, key, path, depth).value, key, quantity, path, ToSet(ids[..n]), ids[n]);
    }
  }

  lemma {:induction false} RuleTree(s: Setup, id: nat, sku: nat, quantity: int, key: Key, path: set<nat>, depth: nat)
    requires UniqueRules(s) && depth == |key| < MAX_DEPTH
    requires ExpandRule(s, id, sku, quantity, key, path, depth).Ok?
    ensures var ps := ExpandRule(s, id, sku, quantity, key, path, depth).value;
            Tree(s, ps, key, quantity, path) && Heads(ps, key, {id})
    decreases MAX_DEPTH - depth, 0
  {
    var r := s.resolve(id, sku);
    if !Skipped(s, id) && r.Resolved? {
      var p := Component(s, id, r, key, quantity);
      ProductTree(s, r.product, r.sku, p.quantity, p.key, path + {r.product}, depth + 1);
      hide Tree, Heads;
      OnTop(s, p, ExpandProduct(s, r.product, r.sku, p.quantity, p.key, path + {r.product}, depth + 1).value, key, quantity, path, id);
    }
  }

  /** `parent` is where the path of `p` comes from. */
  predicate IsParent(parent: Proposal, p: Proposal) {
    p.key != [] && p.parent == Some(parent.key) && parent.key == p.key[..|p.key| - 1]
  }

  ghost predicate QuantitiesMultiply(s: Setup, ps: seq<Proposal>, quantity: int) {
    forall i :: 0 <= i < |ps| ==> |ps[i].key| <= MAX_DEPTH && ps[i].quantity == quantity * Factor(s, ps[i].key)
  }

  ghost predicate DistinctKeys(ps: seq<Proposal>) {
    forall i, j :: 0 <= i < j < |ps| ==> ps[i].key != ps[j].key
  }

  ghost predicate HasParent(ps: seq<Proposal>, i: nat)
    requires i < |ps|
  {
    exists j :: 0 <= j < i && IsParent(ps[j], ps[i])
  }

  ghost predicate ParentsFirst(ps: seq<Proposal>) {
    forall i :: 0 < i < |ps| ==> HasParent(ps, i)
  }

  ghost predicate NoProductRepeats(ps: seq<Proposal>) {
    forall i, j :: 0 <= i < |ps| && 0 <= j < |ps| && ps[i].key < ps[j].key ==> ps[i].product != ps[j].product
  }

  /**
   A well-formed set of requirements: the main product first, distinct paths of at most
   five rules, every parent before its components, no product repeated on a path, and each
   quantity the order's quantity times the per-parent quantities on its path.
   */
  ghost predicate CompositionTree(s: Setup, ps: seq<Proposal>, product: nat, sku: nat, quantity: int) {
    && ps != [] && ps[0] == Main(product, sku, quantity)
    && QuantitiesMultiply(s, ps, quantity) && DistinctKeys(ps) && ParentsFirst(ps) && NoProductRepeats(ps)
  }

  /** Every successful expansion is a well-formed tree, and every selection belongs to one of its rules. */
  lemma ExpansionIsATree(s: Setup, product: nat, sku: nat, quantity: int)
    requires UniqueRules(s) && Expand(s, product, sku, quantity).Ok?
    ensures CompositionTree(s, Expand(s, product, sku, quantity).value, product, sku, quantity)
    ensures forall id | id in s.selections :: KnownRule(Expand(s, product, sku, quantity).value, id)
  {
    ProductTree(s, product, sku, quantity, [], {product}, 0);
    hide ExpandProduct, KnownRule;
    MainOnTop(s, ExpandProduct(s, product, sku, quantity, [], {product}, 0).value, product, sku, quantity);
  }

  /** What the tree below the main product says about one of its proposals. */
  lemma UnderMain(s: Setup, below: seq<Proposal>, main: Proposal, i: nat)
    requires i < |below| && main.key == [] && Below(s, below[i], [], main.quantity, {main.product}) && ParentFirst(below, i, [])
    ensures below[i].key != [] && |below[i].key| <= MAX_DEPTH && below[i].product != main.product
    ensures below[i].quantity == main.quantity * Factor(s, below[i].key)
    ensures HasParent([main] + below, i + 1)
  {
    var ps := [main] + below;
    assert below[i].key[0..] == below[i].key;
    if below[i].parent == Some([]) {
      assert IsParent(ps[0], ps[i + 1]);
    } else {
      var j :| 0 <= j < i && below[i].parent == Some(below[j].key);
      assert IsParent(ps[j + 1], ps[i + 1]);
    }
  }

  lemma MainOnTop(s: Setup, below: seq<Proposal>, product: nat, sku: nat, quantity: int)
    requires Tree(s, below, [], quantity, {product})
    ensures CompositionTree(s, [Main(product, sku, quantity)] + below, product, sku, quantity)
  {
    var main := Main(product, sku, quantity);
    var ps := [main] + below;
    hide Below, ParentFirst, HasParent, DistinctKeys, NoProductRepeats;
    forall i | 0 < i < |ps|
      ensures |ps[i].key| <= MAX_DEPTH && ps[i].quantity == quantity * Factor(s, ps[i].key) && HasParent(ps, i)
    {
      UnderMain(s, below, main, i - 1);
    }
    DistinctOnTop(s, below, main);
    hide Tree;
    assert Factor(s, []) == 1;
  }

  lemma DistinctOnTop(s: Setup, below: seq<Proposal>, main: Proposal)
    requires Tree(s, below, [], main.quantity, {main.product}) && main.key == []
    ensures DistinctKeys([main] + below) && NoProductRepeats([main] + below)
  {
    hide ParentFirst;
    assert forall i :: 0 <= i < |below| ==> Below(s, below[i], [], main.quantity, {main.product});
    hide Factor;
  }

  lemma OnlyMainIsMain(s: Setup, ps: seq<Proposal>, product: nat, sku: nat, quantity: int)
    requires CompositionTree(s, ps, product, sku, quantity)
    ensures ps != [] && ps[0].key == [] && forall i :: 0 < i < |ps| ==> ps[i].key != []
  {
    hide QuantitiesMultiply, DistinctKeys, NoProductRepeats;
    forall i | 0 < i < |ps| ensures ps[i].key != [] {
      assert HasParent(ps, i);
    }
  }

  // ------------------------------------------------------------------ Revenue

  /** Positive price adjustments of the components. */
  function ComponentRevenue(ps: seq<Proposal>): int {
    if |ps| <= 1 then 0 else ComponentRevenue(ps[..|ps| - 1]) + Max(0, ps[|ps| - 1].priceAdjustment)
  }

  function Allocation(ps: seq<Proposal>, itemRevenue: int, i: nat): int
    requires i < |ps|
  {
    if ps[i].key == [] then Max(0, itemRevenue - ComponentRevenue(ps)) else Max(0, ps[i].priceAdjustment)
  }

  /** What the first `n` requirements are credited with. */
  function Allocated(ps: seq<Proposal>, itemRevenue: int, n: nat): int
    requires n <= |ps|
  {
    if n == 0 then 0 else Allocated(ps, itemRevenue, n - 1) + Allocation(ps, itemRevenue, n - 1)
  }

  lemma {:induction false} AllocatedSoFar(ps: seq<Proposal>, itemRevenue: int, n: nat)
    requires 1 <= n <= |ps| && ps[0].key == [] && forall i :: 0 < i < |ps| ==> ps[i].key != []
    ensures Allocated(ps, itemRevenue, n) == Max(0, itemRevenue - ComponentRevenue(ps)) + ComponentRevenue(ps[..n])
  {
    if n > 1 {
      AllocatedSoFar(ps, itemRevenue, n - 1);
      assert ps[..n][..n - 1] == ps[..n - 1];
    } else {
      assert Allocated(ps, itemRevenue, 0) == 0;
    }
  }

  /** The requirements of an item share its revenue, or their own price adjustments when those are more. */
  lemma AllocationsAddUp(s: Setup, product: nat, sku: nat, quantity: int, itemRevenue: int)
    requires UniqueRules(s) && Expand(s, product, sku, quantity).Ok?
    ensures var ps := Expand(s, product, sku, quantity).value;
            Allocated(ps, itemRevenue, |ps|) == Max(itemRevenue, ComponentRevenue(ps))
  {
    hide Expand, CompositionTree;
    ExpansionIsATree(s, product, sku, quantity);
    var ps := Expand(s, product, sku, quantity).value;
    OnlyMainIsMain(s, ps, product, sku, quantity);
    AllocatedSoFar(ps, itemRevenue, |ps|);
    assert ps[..|ps|] == ps;
  }

  // ------------------------------------------------------------------ The service

  lemma RulesPrefix(s: Setup, ids: seq<nat>, k: nat, sku: nat, quantity: int, key: Key, path: set<nat>, depth: nat)
    requires depth < MAX_DEPTH && k < |ids|
    ensures ids[..k + 1][..k] == ids[..k] && ids[..k + 1][k] == ids[k]
  {
  }

  lemma {:induction false} RefusalStays(s: Setup, ids: seq<nat>, k: nat, sku: nat, quantity: int, key: Key, path: set<nat>, depth: nat)
    requires depth < MAX_DEPTH && k <= |ids| && ExpandRules(s, ids[..k], sku, quantity, key, path, depth).Refused?
    ensures ExpandRules(s, ids, sku, quantity, key, path, depth) == ExpandRules(s, ids[..k], sku, quantity, key, path, depth)
    decreases |ids| - k
  {
    if k < |ids| {
      RulesPrefix(s, ids, k, sku, quantity, key, path, depth);
      RefusalStays(s, ids, k + 1, sku, quantity, key, path, depth);
    } else {
      assert ids[..k] == ids;
    }
  }

  /** A requirement row: the row of its parent and the revenue it is credited with. */
  datatype Row = Row(proposal: Proposal, parent: Option<nat>, revenue: int)

  /** Expands one booking item; the recursive calls push onto one shared list. */
  class Expander {
    const setup: Setup
    var proposals: seq<Proposal>

    constructor (setup: Setup)
      ensures this.setup == setup && proposals == []
    {
      this.setup := setup;
      proposals := [];
    }

    method ExpandProductRules(product: nat, sku: nat, quantity: int, key: Key, path: set<nat>, depth: nat) returns (refusal: Option<Reason>)
      requires depth <= MAX_DEPTH
      modifies this
      ensures match ExpandProduct(setup, product, sku, quantity, key, path, depth)
              case Ok(below) => refusal == None && proposals == old(proposals) + below
              case Refused(why) => refusal == Some(why)
      decreases MAX_DEPTH - depth, 1
    {
      var ids := setup.rulesOf(product);
      if depth >= MAX_DEPTH {
        return if ids != [] then Some(TooDeep) else None;
      }
      for k := 0 to |ids|
        invariant ExpandRules(setup, ids[..k], sku, quantity, key, path, depth).Ok?
        invariant proposals == old(proposals) + ExpandRules(setup, ids[..k], sku, quantity, key, path, depth).value
      {
        RulesPrefix(setup, ids, k, sku, quantity, key, path, depth);
        refusal := PushRule(ids[k], sku, quantity, key, path, depth);
        if refusal.Some? {
          RefusalStays(setup, ids, k + 1, sku, quantity, key, path, depth);
          return;
        }
      }
      assert ids[..|ids|] == ids;
      refusal := None;
    }

    /** One pass of the loop: pushes a component and expands it. */
    method PushRule(id: nat, sku: nat, quantity: int, key: Key, path: set<nat>, depth: nat) returns (refusal: Option<Reason>)
      requires depth < MAX_DEPTH
      modifies this
      ensures match ExpandRule(setup, id, sku, quantity, key, path, depth)
              case Ok(mine) => refusal == None && proposals == old(proposals) + mine
              case Refused(why) => refusal == Some(why)
      decreases MAX_DEPTH - depth, 0
    {
      hide ExpandProduct;
      if Skipped(setup, id) { return None; }
      var resolved := setup.resolve(id, sku);
      if resolved.Rejected? { return Some(SelectionRejected); }
      if resolved.Unresolved? {
        return if setup.rule(id).role == REQUIRED_COMPONENT then Some(ComponentUnresolved) else None;
      }
      if resolved.product in path { return Some(Cycle); }
      var perParent := PerParent(setup, id);
      if perParent < 1 || perParent > 100 { return Some(QuantityOutOfRange); }
      var p := Component(setup, id, resolved, key, quantity);
      proposals := proposals + [p];
      refusal := ExpandProductRules(resolved.product, resolved.sku, p.quantity, p.key, path + {resolved.product}, depth + 1);
    }

    method ExpandProposal(product: nat, sku: nat, quantity: int) returns (outcome: Outcome<seq<Proposal>>)
      modifies this
      ensures outcome == Expand(setup, product, sku, quantity)
    {
      hide ExpandProduct, KnownRule;
      proposals := [Main(product, sku, quantity)];
      var refusal := ExpandProductRules(product, sku, quantity, [], {product}, 0);
      if refusal.Some? { return Refused(refusal.value); }
      if exists id | id in setup.selections :: !KnownRule(proposals, id) { return Refused(UnknownSelection); }
      return Ok(proposals);
    }
  }

  lemma ComponentRevenueStep(ps: seq<Proposal>, k: nat)
    requires 1 <= k < |ps|
    ensures ComponentRevenue(ps[..k + 1]) == ComponentRevenue(ps[..k]) + Max(0, ps[k].priceAdjustment)
  {
    assert ps[..k + 1][..k] == ps[..k];
  }

  /** Row `i`: its parent is an earlier row, and its revenue the one allocated to it. */
  ghost predicate GoodRow(ps: seq<Proposal>, row: Row, itemRevenue: int, i: nat)
    requires i < |ps|
  {
    && row.proposal == ps[i] && row.revenue == Allocation(ps, itemRevenue, i)
    && if i == 0 then row.parent == None else row.parent.Some? && row.parent.value < i && IsParent(ps[row.parent.value], ps[i])
  }

  /** The first `k` keys, each with the row created for it. */
  ghost predicate Created(ps: seq<Proposal>, createdByKey: map<Key, nat>, k: nat)
    requires k <= |ps|
  {
    forall i: nat :: i < k ==> ps[i].key in createdByKey && createdByKey[ps[i].key] == i
  }

  lemma ParentIsCreated(ps: seq<Proposal>, createdByKey: map<Key, nat>, k: nat)
    requires k < |ps| && HasParent(ps, k) && Created(ps, createdByKey, k)
    ensures ps[k].parent.Some? && ps[k].parent.value in createdByKey
    ensures createdByKey[ps[k].parent.value] < k && IsParent(ps[createdByKey[ps[k].parent.value]], ps[k])
  {
    var j: nat :| j < k && IsParent(ps[j], ps[k]);
  }

  lemma CreateOne(ps: seq<Proposal>, createdByKey: map<Key, nat>, k: nat)
    requires k < |ps| && DistinctKeys(ps) && Created(ps, createdByKey, k)
    ensures Created(ps, createdByKey[ps[k].key := k], k + 1)
  {
  }

  /** Creates the requirement rows in order, looking each parent up among the rows created so far. */
  method CreateRequirements(s: Setup, ps: seq<Proposal>, product: nat, sku: nat, quantity: int, itemRevenue: int) returns (rows: seq<Row>)
    requires CompositionTree(s, ps, product, sku, quantity)
    ensures |rows| == |ps| && forall i :: 0 <= i < |ps| ==> GoodRow(ps, rows[i], itemRevenue, i)
  {
    hide QuantitiesMultiply, NoProductRepeats, ComponentRevenue, IsParent, DistinctKeys, HasParent, Created;
    var componentRevenue := SumComponents(ps);
    var mainRevenue := Max(0, itemRevenue - componentRevenue);
    var createdByKey: map<Key, nat> := map[];
    rows := [];
    assert Created(ps, createdByKey, 0) by { NothingCreated(ps); }
    for k := 0 to |ps|
      invariant |rows| == k && Created(ps, createdByKey, k)
      invariant forall i :: 0 <= i < k ==> GoodRow(ps, rows[i], itemRevenue, i)
    {
      var p := ps[k];
      if k > 0 { ParentIsCreated(ps, createdByKey, k); }
      var parent := if p.parent.Some? && p.parent.value in createdByKey then Some(createdByKey[p.parent.value]) else None;
      var row := Row(p, parent, if p.key == [] then mainRevenue else Max(0, p.priceAdjustment));
      assert GoodRow(ps, row, itemRevenue, k);
      hide GoodRow;
      rows := rows + [row];
      CreateOne(ps, createdByKey, k);
      createdByKey := createdByKey[p.key := k];
    }
  }

  lemma NothingCreated(ps: seq<Proposal>)
    ensures Created(ps, map[], 0)
  {
  }

  method SumComponents(ps: seq<Proposal>) returns (sum: int)
    requires ps != []
    ensures sum == ComponentRevenue(ps)
  {
    sum := 0;
    for k := 1 to |ps|
      invariant sum == ComponentRevenue(ps[..k])
    {
      ComponentRevenueStep(ps, k);
      sum := sum + Max(0, ps[k].priceAdjustment);
    }
    assert ps[..|ps|] == ps;
  }
}
