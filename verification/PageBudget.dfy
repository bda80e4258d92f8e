/** How many pages it takes to map memory (kernel/vm.c): the pages themselves, and the tables on the way to them that
    the tree does not have yet. */
module PageBudget {
  import opened PageTable

  /** A table below the root, by its level and the part of the virtual address that leads to it. */
  datatype Place = Place(level: nat, prefix: nat)

  /** The tables that lead to page v. */
  function PathTo(v: nat): set<Place> {
    {Place(1, v / ENTRIES / ENTRIES), Place(0, v / ENTRIES)}
  }

  /** The tables that lead to the n pages from v on. */
  function TablesFor(v: nat, n: nat): (s: set<Place>) {
    if n == 0 then {} else TablesFor(v, n - 1) + PathTo(v + n - 1)
  }

  predicate Has(nodes: map<Key, nat>, r: nat, x: Place) {
    Key(r, x.level, x.prefix) in nodes
  }

  /** Those of them that tree r does not have. */
  function Missing(nodes: map<Key, nat>, r: nat, v: nat, n: nat): (s: set<Place>) {
    set x | x in TablesFor(v, n) && !Has(nodes, r, x)
  }

  /** What it takes to map n new pages from v on. */
  function Price(nodes: map<Key, nat>, r: nat, v: nat, n: nat): nat {
    n + |Missing(nodes, r, v, n)|
  }

  /** Tree r has got the tables for n pages from v on, and the free list has given the pages for those that were missing
      and some others. */
  ghost predicate Spent(g0: Pool, g: Pool, r: nat, v: nat, n: nat, others: nat) {
    && |g.free| + others + |Missing(g0.nodes, r, v, n)| == |g0.free|
    && forall k :: k in g.nodes <==> k in g0.nodes || (k.root == r && Place(k.level, k.prefix) in TablesFor(v, n))
  }

  lemma SpentNothing(g: Pool, r: nat, v: nat)
    ensures Spent(g, g, r, v, 0, 0)
  {
    assert Missing(g.nodes, r, v, 0) == {};
  }

  /** Only the tables that are still missing have to be paid for. */
  lemma MissingMore(g0: Pool, g: Pool, r: nat, v: nat, n: nat, others: nat)
    requires Spent(g0, g, r, v, n, others)
    ensures |Missing(g0.nodes, r, v, n + 1)| == |Missing(g0.nodes, r, v, n)| + |Missing(g.nodes, r, v + n, 1)|
  {
    assert TablesFor(v + n, 1) == TablesFor(v + n, 0) + PathTo(v + n) == PathTo(v + n);
    assert TablesFor(v, n + 1) == TablesFor(v, n) + PathTo(v + n);
    forall x | x in PathTo(v + n)
      ensures Has(g.nodes, r, x) <==> Has(g0.nodes, r, x) || x in TablesFor(v, n)
    {
      var k := Key(r, x.level, x.prefix);
      assert k in g.nodes <==> k in g0.nodes || Place(k.level, k.prefix) in TablesFor(v, n);
    }
    hide TablesFor, Has, PathTo, Spent;
    var all, before, more := Missing(g0.nodes, r, v, n + 1), Missing(g0.nodes, r, v, n), Missing(g.nodes, r, v + n, 1);
    assert all == before + more && before * more == {};
    assert |before + more| == |before| + |more| - |before * more|;
  }

  lemma SpentMore(g0: Pool, g1: Pool, g: Pool, r: nat, v: nat, n: nat, a: nat, b: nat)
    requires Spent(g0, g1, r, v, n, a) && Spent(g1, g, r, v + n, 1, b)
    ensures Spent(g0, g, r, v, n + 1, a + b)
  {
    MissingMore(g0, g1, r, v, n, a);
    assert TablesFor(v + n, 1) == TablesFor(v + n, 0) + PathTo(v + n) == PathTo(v + n);
  }

  lemma {:induction false} TablesGrow(v: nat, n: nat, m: nat)
    requires n <= m
    ensures TablesFor(v, n) <= TablesFor(v, m)
  {
    if n < m {
      TablesGrow(v, n, m - 1);
    }
  }

  lemma MissingGrows(nodes: map<Key, nat>, r: nat, v: nat, n: nat, m: nat)
    requires n <= m
    ensures |Missing(nodes, r, v, n)| <= |Missing(nodes, r, v, m)|
  {
    TablesGrow(v, n, m);
    Subset(Missing(nodes, r, v, n), Missing(nodes, r, v, m));
  }

  lemma Subset(a: set<Place>, b: set<Place>)
    requires a <= b
    ensures |a| <= |b|
  {
    assert b == a + (b - a);
  }

  /** If the pages do not suffice for one page more, they do not suffice for all that there are to map. */
  lemma TooFew(g0: Pool, g: Pool, r: nat, v: nat, n: nat, others: nat, b: nat, m: nat)
    requires Spent(g0, g, r, v, n, others) && |g.free| < b + |Missing(g.nodes, r, v + n, 1)| && n < m
    ensures |g0.free| < others + b + |Missing(g0.nodes, r, v, m)|
  {
    MissingMore(g0, g, r, v, n, others);
    MissingGrows(g0.nodes, r, v, n + 1, m);
  }

  lemma SpentEnough(g0: Pool, g: Pool, r: nat, v: nat, n: nat, others: nat)
    requires Spent(g0, g, r, v, n, others)
    ensures |g0.free| == |g.free| + others + |Missing(g0.nodes, r, v, n)|
  {
  }

  /** A table that is not there. */
  function Lacking(nodes: map<Key, nat>, r: nat, x: Place): nat {
    if Has(nodes, r, x) then 0 else 1
  }

  lemma MissingOne(nodes: map<Key, nat>, r: nat, v: nat)
    ensures |Missing(nodes, r, v, 1)| == Lacking(nodes, r, Place(1, v / ENTRIES / ENTRIES))
                                         + Lacking(nodes, r, Place(0, v / ENTRIES))
  {
    var x, y := Place(1, v / ENTRIES / ENTRIES), Place(0, v / ENTRIES);
    assert TablesFor(v, 1) == TablesFor(v, 0) + PathTo(v) == {x, y};
    hide TablesFor, Has;
    var s := Missing(nodes, r, v, 1);
    if Has(nodes, r, x) {
      assert s == if Has(nodes, r, y) then {} else {y};
    } else {
      assert s == if Has(nodes, r, y) then {x} else {x, y};
    }
  }

  /** One table more, if it was not there. */
  ghost predicate SpentTable(g0: Pool, g: Pool, r: nat, x: Place) {
    && |g.free| + Lacking(g0.nodes, r, x) == |g0.free|
    && forall k :: k in g.nodes <==> k in g0.nodes || k == Key(r, x.level, x.prefix)
  }

  /** A whole walk. */
  lemma SpentPath(g0: Pool, g1: Pool, g: Pool, r: nat, v: nat)
    requires SpentTable(g0, g1, r, Place(1, v / ENTRIES / ENTRIES)) && SpentTable(g1, g, r, Place(0, v / ENTRIES))
    ensures Spent(g0, g, r, v, 1, 0)
  {
    MissingOne(g0.nodes, r, v);
    assert TablesFor(v, 1) == TablesFor(v, 0) + PathTo(v) == PathTo(v);
    assert Has(g1.nodes, r, Place(0, v / ENTRIES)) <==> Has(g0.nodes, r, Place(0, v / ENTRIES));
  }

  // The number of tables for a new tree.

  function Up(n: nat, d: nat): nat
    requires d > 0
  {
    (n + d - 1) / d
  }

  /** The first m tables of a level. */
  function FirstTables(level: nat, m: nat): (s: set<Place>) {
    if m == 0 then {} else FirstTables(level, m - 1) + {Place(level, m - 1)}
  }

  lemma {:induction false} FirstTablesAre(level: nat, m: nat)
    ensures |FirstTables(level, m)| == m
    ensures forall x :: x in FirstTables(level, m) <==> x.level == level && x.prefix < m
  {
    if m > 0 {
      FirstTablesAre(level, m - 1);
    }
  }

  /** The pages from 0 on lie in the first tables of each level. */
  lemma {:induction false} TablesFromZero(n: nat)
    ensures TablesFor(0, n) == FirstTables(1, Up(n, ENTRIES * ENTRIES)) + FirstTables(0, Up(n, ENTRIES))
  {
    if n > 0 {
      TablesFromZero(n - 1);
      assert (n - 1) / ENTRIES / ENTRIES == (n - 1) / (ENTRIES * ENTRIES);
      NextTable(1, n, ENTRIES * ENTRIES);
      NextTable(0, n, ENTRIES);
      Rearranged(FirstTables(1, Up(n - 1, ENTRIES * ENTRIES)), FirstTables(0, Up(n - 1, ENTRIES)),
                 Place(1, (n - 1) / ENTRIES / ENTRIES), Place(0, (n - 1) / ENTRIES));
    }
  }

  lemma Rearranged(a: set<Place>, b: set<Place>, x: Place, y: Place)
    ensures a + b + {x, y} == (a + {x}) + (b + {y})
  {
  }

  lemma NextTable(level: nat, n: nat, d: nat)
    requires n > 0 && (d == ENTRIES || d == ENTRIES * ENTRIES)
    ensures FirstTables(level, Up(n, d)) == FirstTables(level, Up(n - 1, d)) + {Place(level, (n - 1) / d)}
  {
    FirstTablesAre(level, Up(n, d));
    FirstTablesAre(level, Up(n - 1, d));
    assert Up(n, d) == (n - 1) / d + 1 && (Up(n - 1, d) == Up(n, d) || Up(n - 1, d) == Up(n, d) - 1);
  }

  /** So many tables it takes to map n pages from 0 on in a new tree. */
  lemma TableCount(n: nat)
    ensures |TablesFor(0, n)| == Up(n, ENTRIES) + Up(n, ENTRIES * ENTRIES)
  {
    TablesFromZero(n);
    var a, b := FirstTables(1, Up(n, ENTRIES * ENTRIES)), FirstTables(0, Up(n, ENTRIES));
    FirstTablesAre(1, Up(n, ENTRIES * ENTRIES));
    FirstTablesAre(0, Up(n, ENTRIES));
    assert a !! b;
  }
}
