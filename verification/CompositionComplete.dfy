/**
 The expansion of a product is complete: it holds exactly the components that the rules lead
 to, and it is refused exactly when some rule on the way is broken.
 */
module CompositionComplete {
  import opened Common
  import opened Composition

  /** A product that a list of rules leads to; `above` are the products on the way, itself included. */
  datatype Node = Node(product: nat, sku: nat, quantity: int, price: int, above: set<nat>)

  /** Add-ons are left out unless the customer chose them or they are selected by default. */
  predicate Wanted(s: Setup, id: nat) {
    s.rule(id).role != OPTIONAL_ADDON || id in s.selections || s.rule(id).defaultSelected
  }

  /** Pieces for each piece of the parent: the customer may choose them for an add-on. */
  function Pieces(s: Setup, id: nat): int {
    if s.rule(id).role != OPTIONAL_ADDON || id !in s.selections then s.rule(id).quantity
    else match s.selections[id]
      case None => s.rule(id).quantity
      case Some(n) => if n == 0 then s.rule(id).quantity else n
  }

  /** Rule `id` of the product at `n` leads to a component. */
  predicate Leads(s: Setup, n: Node, id: nat) {
    id in s.rulesOf(n.product) && Wanted(s, id) && s.resolve(id, n.sku).Resolved?
  }

  function Child(s: Setup, n: Node, id: nat): Node
    requires Leads(s, n, id)
  {
    var to, quantity := s.resolve(id, n.sku), n.quantity * Pieces(s, id);
    Node(to.product, to.sku, quantity, if s.rule(id).included then 0 else (s.rule(id).priceAdjustment + to.alternativePrice) * quantity,
         n.above + {to.product})
  }

  /** Where the rules `rel` lead from `n`. */
  function Walk(s: Setup, n: Node, rel: Key): Option<Node>
    decreases |rel|
  {
    if rel == [] then Some(n)
    else if Leads(s, n, rel[0]) then Walk(s, Child(s, n, rel[0]), rel[1..]) else None
  }

  /** A rule that cannot be carried out: rejected, required but unresolved, circular, or for too few or too many pieces. */
  predicate Broken(s: Setup, n: Node, id: nat) {
    && Wanted(s, id)
    && match s.resolve(id, n.sku)
       case Rejected => true
       case Unresolved => s.rule(id).role == REQUIRED_COMPONENT
       case Resolved(product, _, _) => product in n.above || Pieces(s, id) < 1 || Pieces(s, id) > 100
  }

  /** What is wrong with the product at `n`, `depth` rules down: a broken rule, or rules where there may be none. */
  predicate Faulty(s: Setup, n: Node, depth: nat) {
    if depth >= 5 then s.rulesOf(n.product) != [] else exists id | id in s.rulesOf(n.product) :: Broken(s, n, id)
  }

  predicate Fault(s: Setup, n: Node, depth: nat, rel: Key) {
    Walk(s, n, rel).Some? && depth + |rel| <= 5 && Faulty(s, Walk(s, n, rel).value, depth + |rel|)
  }

  /** No list of rules leads to anything wrong. */
  ghost predicate Flawless(s: Setup, n: Node, depth: nat) {
    forall rel: Key :: !Fault(s, n, depth, rel)
  }

  /** Proposal `p` is the component that the rules `rel` lead to. */
  predicate Is(s: Setup, n: Node, p: Proposal, rel: Key) {
    && Walk(s, n, rel).Some?
    && var m := Walk(s, n, rel).value;
       p.product == m.product && p.sku == m.sku && p.quantity == m.quantity && p.priceAdjustment == m.price
  }

  /** The proposals below the node at `key` are what the rules lead to, when the first of them is among `ids`. */
  ghost predicate Covers(s: Setup, n: Node, key: Key, ids: set<nat>, below: seq<Proposal>) {
    && (forall p | p in below :: key < p.key && p.key[|key|] in ids && Is(s, n, p, p.key[|key|..]))
    && (forall rel: Key :: rel != [] && rel[0] in ids && Walk(s, n, rel).Some? ==> exists p | p in below :: p.key == key + rel)
  }

  /** Rule `id` and everything below it can be carried out. */
  ghost predicate Sound(s: Setup, n: Node, depth: nat, id: nat) {
    !Broken(s, n, id) && (Leads(s, n, id) ==> Flawless(s, Child(s, n, id), depth + 1))
  }

  lemma {:induction false} ProductCovers(s: Setup, n: Node, key: Key, depth: nat)
    requires depth <= MAX_DEPTH
    ensures var outcome := ExpandProduct(s, n.product, n.sku, n.quantity, key, n.above, depth);
            && (outcome.Ok? <==> Flawless(s, n, depth))
            && (outcome.Ok? ==> Covers(s, n, key, ToSet(s.rulesOf(n.product)), outcome.value))
    decreases MAX_DEPTH - depth, |s.rulesOf(n.product)| + 1
  {
    if depth == MAX_DEPTH {
      NoRulesLeft(s, n, key, depth);
    } else {
      RulesCover(s, n, s.rulesOf(n.product), key, depth);
      FaultsByRule(s, n, depth);
      hide Sound, Covers, Flawless;
    }
  }

  lemma NoRulesLeft(s: Setup, n: Node, key: Key, depth: nat)
    requires depth == MAX_DEPTH
    ensures Flawless(s, n, depth) <==> s.rulesOf(n.product) == []
    ensures s.rulesOf(n.product) == [] ==> Covers(s, n, key, ToSet(s.rulesOf(n.product)), [])
  {
    assert Fault(s, n, depth, []) <==> s.rulesOf(n.product) != [];
  }

  /** A fault below a product is a broken rule of its own, or a fault below one of its components. */
  lemma FaultsByRule(s: Setup, n: Node, depth: nat)
    requires depth < MAX_DEPTH
    ensures Flawless(s, n, depth) <==> forall id | id in s.rulesOf(n.product) :: Sound(s, n, depth, id)
  {
    if Flawless(s, n, depth) {
      assert !Fault(s, n, depth, []);
      forall id | id in s.rulesOf(n.product) ensures Sound(s, n, depth, id) {
        if Leads(s, n, id) { BelowIsFlawless(s, n, depth, id); }
      }
    } else {
      var rel: Key :| Fault(s, n, depth, rel);
      if rel != [] {
        assert Leads(s, n, rel[0]);
        assert Fault(s, Child(s, n, rel[0]), depth + 1, rel[1..]);
        assert !Sound(s, n, depth, rel[0]);
      }
    }
  }

  lemma BelowIsFlawless(s: Setup, n: Node, depth: nat, id: nat)
    requires depth < MAX_DEPTH && Flawless(s, n, depth) && Leads(s, n, id)
    ensures Flawless(s, Child(s, n, id), depth + 1)
  {
    var d := depth + 1;
    forall rel: Key ensures !Fault(s, Child(s, n, id), d, rel) {
      assert ([id] + rel)[1..] == rel;
      assert !Fault(s, n, depth, [id] + rel);
    }
  }

  lemma {:induction false} RulesCover(s: Setup, n: Node, ids: seq<nat>, key: Key, depth: nat)
    requires depth < MAX_DEPTH && forall id | id in ids :: id in s.rulesOf(n.product)
    ensures var outcome := ExpandRules(s, ids, n.sku, n.quantity, key, n.above, depth);
            && (outcome.Ok? <==> forall id | id in ids :: Sound(s, n, depth, id))
            && (outcome.Ok? ==> Covers(s, n, key, ToSet(ids), outcome.value))
    decreases MAX_DEPTH - depth, |ids|
  {
    if ids != [] {
      var k := |ids| - 1;
      RulesCover(s, n, ids[..k], key, depth);
      RuleCovers(s, n, ids[k], key, depth);
      assert ids == ids[..k] + [ids[k]] && ToSet(ids) == ToSet(ids[..k]) + {ids[k]};
      hide Sound, Covers, ExpandRule;
      if ExpandRules(s, ids, n.sku, n.quantity, key, n.above, depth).Ok? {
        CoversTogether(s, n, key, ToSet(ids[..k]), ExpandRules(s, ids[..k], n.sku, n.quantity, key, n.above, depth).value,
                       {ids[k]}, ExpandRule(s, ids[k], n.sku, n.quantity, key, n.above, depth).value);
      }
    } else {
      assert Covers(s, n, key, {}, []);
    }
  }

  lemma CoversTogether(s: Setup, n: Node, key: Key, a: set<nat>, ps: seq<Proposal>, b: set<nat>, qs: seq<Proposal>)
    requires Covers(s, n, key, a, ps) && Covers(s, n, key, b, qs)
    ensures Covers(s, n, key, a + b, ps + qs)
  {
    hide Is, Walk;
    forall rel: Key | rel != [] && rel[0] in a + b && Walk(s, n, rel).Some? ensures exists p | p in ps + qs :: p.key == key + rel {
      if rel[0] in a {
        var p :| p in ps && p.key == key + rel;
        assert p in ps + qs;
      } else {
        var p :| p in qs && p.key == key + rel;
        assert p in ps + qs;
      }
    }
  }

  lemma SameRule(s: Setup, id: nat)
    ensures Skipped(s, id) <==> !Wanted(s, id)
    ensures PerParent(s, id) == Pieces(s, id)
  {
  }

  lemma {:induction false} RuleCovers(s: Setup, n: Node, id: nat, key: Key, depth: nat)
    requires depth < MAX_DEPTH && id in s.rulesOf(n.product)
    ensures var outcome := ExpandRule(s, id, n.sku, n.quantity, key, n.above, depth);
            && (outcome.Ok? <==> Sound(s, n, depth, id))
            && (outcome.Ok? ==> Covers(s, n, key, {id}, outcome.value))
    decreases MAX_DEPTH - depth, 0
  {
    SameRule(s, id);
    hide Skipped, PerParent, Wanted, Pieces, ExpandProduct, Flawless;
    if Leads(s, n, id) {
      var m := Child(s, n, id);
      ProductCovers(s, m, key + [id], depth + 1);
      if !Broken(s, n, id) && ExpandProduct(s, m.product, m.sku, m.quantity, key + [id], m.above, depth + 1).Ok? {
        UnderRule(s, n, id, key, ExpandProduct(s, m.product, m.sku, m.quantity, key + [id], m.above, depth + 1).value);
      }
    } else {
      assert Covers(s, n, key, {id}, []);
    }
  }

  lemma FirstRuleLeads(s: Setup, n: Node, rel: Key)
    requires rel != [] && Walk(s, n, rel).Some?
    ensures Leads(s, n, rel[0]) && Walk(s, n, rel) == Walk(s, Child(s, n, rel[0]), rel[1..])
    ensures rel[0] in ToSet(s.rulesOf(n.product))
  {
  }

  lemma WalkThrough(s: Setup, n: Node, id: nat, rel: Key)
    requires Leads(s, n, id)
    ensures Walk(s, n, [id] + rel) == Walk(s, Child(s, n, id), rel)
  {
    assert ([id] + rel)[1..] == rel;
  }

  lemma IsThrough(s: Setup, n: Node, id: nat, p: Proposal, rel: Key)
    requires Leads(s, n, id) && Is(s, Child(s, n, id), p, rel)
    ensures Is(s, n, p, [id] + rel)
  {
    WalkThrough(s, n, id, rel);
  }

  /** A component with everything below it, seen from its parent. */
  lemma UnderRule(s: Setup, n: Node, id: nat, key: Key, below: seq<Proposal>)
    requires Leads(s, n, id) && Covers(s, Child(s, n, id), key + [id], ToSet(s.rulesOf(Child(s, n, id).product)), below)
    ensures Covers(s, n, key, {id}, [Component(s, id, s.resolve(id, n.sku), key, n.quantity)] + below)
  {
    var m, c := Child(s, n, id), Component(s, id, s.resolve(id, n.sku), key, n.quantity);
    ComponentIs(s, n, id, key);
    hide Child, Component, Walk, Leads, Is;
    forall p | p in [c] + below ensures key < p.key && p.key[|key|] == id && Is(s, n, p, p.key[|key|..]) {
      if p != c {
        var rel := p.key[|key + [id]|..];
        assert key + [id] < p.key && p.key[|key|..] == [id] + rel;
        IsThrough(s, n, id, p, rel);
      }
    }
    forall rel: Key | rel != [] && rel[0] == id && Walk(s, n, rel).Some? ensures exists p | p in [c] + below :: p.key == key + rel {
      FirstRuleLeads(s, n, rel);
      assert key + [id] + rel[1..] == key + rel;
      if rel[1..] == [] {
        assert c.key == key + rel;
      } else {
        FirstRuleLeads(s, m, rel[1..]);
        var p :| p in below && p.key == key + [id] + rel[1..];
        assert p in [c] + below;
      }
    }
  }

  lemma ComponentIs(s: Setup, n: Node, id: nat, key: Key)
    requires Leads(s, n, id)
    ensures var c := Component(s, id, s.resolve(id, n.sku), key, n.quantity);
            c.key == key + [id] && key < c.key && Is(s, n, c, c.key[|key|..])
  {
    SameRule(s, id);
    WalkThrough(s, n, id, []);
    assert [id] + [] == [id] == (key + [id])[|key|..];
  }

  /** The main product of an order. */
  function Root(product: nat, sku: nat, quantity: int): Node {
    Node(product, sku, quantity, 0, {product})
  }

  /**
   An expansion succeeds exactly when no rule that it comes to is broken and the customer chose
   nothing that it does not come to.
   */
  lemma ExpandIff(s: Setup, product: nat, sku: nat, quantity: int)
    ensures var root := Root(product, sku, quantity);
            Expand(s, product, sku, quantity).Ok?
            <==> && Flawless(s, root, 0)
                 && (forall id | id in s.selections :: exists rel: Key :: Walk(s, root, rel + [id]).Some?)
  {
    var root := Root(product, sku, quantity);
    ProductCovers(s, root, [], 0);
    hide Flawless, ExpandProduct;
    var outcome := ExpandProduct(s, product, sku, quantity, [], {product}, 0);
    if outcome.Ok? {
      forall id ensures KnownRule([Main(product, sku, quantity)] + outcome.value, id) <==> exists rel: Key :: Walk(s, root, rel + [id]).Some? {
        KnownIff(s, product, sku, quantity, outcome.value, id);
      }
    }
    hide KnownRule, Walk;
  }

  lemma KnownIff(s: Setup, product: nat, sku: nat, quantity: int, below: seq<Proposal>, id: nat)
    requires Covers(s, Root(product, sku, quantity), [], ToSet(s.rulesOf(product)), below)
    ensures KnownRule([Main(product, sku, quantity)] + below, id) <==> exists rel: Key :: Walk(s, Root(product, sku, quantity), rel + [id]).Some?
  {
    var root, ps := Root(product, sku, quantity), [Main(product, sku, quantity)] + below;
    hide Walk, Leads, Child;
    if KnownRule(ps, id) {
      var p :| p in ps && p.key != [] && p.key[|p.key| - 1] == id;
      var rel := p.key[..|p.key| - 1];
      assert p in below && p.key[0..] == p.key == rel + [id];
      assert Walk(s, root, rel + [id]).Some?;
    }
    if rel: Key :| Walk(s, root, rel + [id]).Some? {
      FirstRuleLeads(s, root, rel + [id]);
      KnownWhenCovered(s, root, ps, below, rel + [id]);
    }
  }

  lemma KnownWhenCovered(s: Setup, root: Node, ps: seq<Proposal>, below: seq<Proposal>, rel: Key)
    requires Covers(s, root, [], ToSet(s.rulesOf(root.product)), below) && forall p | p in below :: p in ps
    requires rel != [] && rel[0] in ToSet(s.rulesOf(root.product)) && Walk(s, root, rel).Some?
    ensures KnownRule(ps, rel[|rel| - 1])
  {
    hide Walk;
    var p :| p in below && p.key == [] + rel;
    assert p.key == rel;
  }

  /** A successful expansion holds exactly the components that the rules lead to, each with its SKU, quantity and price. */
  lemma ExpansionIsComplete(s: Setup, product: nat, sku: nat, quantity: int)
    requires Expand(s, product, sku, quantity).Ok?
    ensures var ps, root := Expand(s, product, sku, quantity).value, Root(product, sku, quantity);
            && (forall p | p in ps :: Is(s, root, p, p.key))
            && (forall rel: Key :: Walk(s, root, rel).Some? ==> exists p | p in ps :: p.key == rel)
  {
    var root := Root(product, sku, quantity);
    ProductCovers(s, root, [], 0);
    hide Flawless, ExpandProduct, KnownRule;
    var below := ExpandProduct(s, product, sku, quantity, [], {product}, 0).value;
    var ps := Expand(s, product, sku, quantity).value;
    assert ps == [Main(product, sku, quantity)] + below;
    forall p | p in ps ensures Is(s, root, p, p.key) {
      assert p.key[0..] == p.key;
    }
    forall rel: Key | Walk(s, root, rel).Some? ensures exists p | p in ps :: p.key == rel {
      if rel == [] {
        assert ps[0].key == rel;
      } else {
        FirstRuleLeads(s, root, rel);
        var p :| p in below && p.key == [] + rel;
        assert p in ps;
      }
    }
  }

  // ------------------------------------------------------------------ Credits

  /** A component adds its price to what the components take of an item's revenue, unless that is negative. */
  lemma ComponentCounts(ps: seq<Proposal>, p: Proposal)
    ensures ComponentRevenue([p]) == 0
    ensures ps != [] ==> ComponentRevenue(ps + [p]) == ComponentRevenue(ps) + if p.priceAdjustment > 0 then p.priceAdjustment else 0
  {
    assert (ps + [p])[..|ps|] == ps;
  }

  /** A component is credited its price, unless that is negative, and the main product what is left, if anything. */
  lemma CreditsAre(s: Setup, ps: seq<Proposal>, product: nat, sku: nat, quantity: int, itemRevenue: int, rows: seq<Row>, i: nat)
    requires CompositionTree(s, ps, product, sku, quantity) && i < |ps| == |rows| && GoodRow(ps, rows[i], itemRevenue, i)
    ensures var left := itemRevenue - ComponentRevenue(ps);
            rows[i].revenue == if i == 0 then (if left > 0 then left else 0)
                               else if ps[i].priceAdjustment > 0 then ps[i].priceAdjustment else 0
  {
    OnlyMainIsMain(s, ps, product, sku, quantity);
    hide CompositionTree, ComponentRevenue;
  }
}
