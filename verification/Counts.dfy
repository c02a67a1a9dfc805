/** How many table frames a set of mapped pages takes: exactly the places above them (src/mm/vmm.c, lines 111-184). */
module Counts {
  import opened PageTables

  /** The places of the four tables above a page. */
  function TablesAbove(g: Page): (ns: set<Node>)
  {
    var p3 := PagePath(g.v).up;
    {Node(g.sp, p3), Node(g.sp, p3.up), Node(g.sp, p3.up.up), Node(g.sp, Root)}
  }

  /** The places of the tables that a set of mapped pages takes. */
  ghost function TableNodes(pages: set<Page>): (ns: set<Node>)
  {
    set g, n | g in pages && n in TablesAbove(g) :: n
  }

  lemma MorePagesMoreTables(p: set<Page>, q: set<Page>)
    requires p <= q
    ensures TableNodes(p) <= TableNodes(q) && |TableNodes(p)| <= |TableNodes(q)|
  {
    SubsetSize(TableNodes(p), TableNodes(q));
  }

  /** Consecutive pages of a space. */
  ghost function Stretch(s: nat, first: nat, n: nat): (pages: set<Page>)
  {
    set p | first <= p < first + n :: Page(s, p)
  }

  lemma {:induction false} StretchSize(s: nat, first: nat, n: nat)
    ensures |Stretch(s, first, n)| == n
  {
    if n > 0 {
      StretchSize(s, first, n - 1);
      assert Stretch(s, first, n) == Stretch(s, first, n - 1) + {Page(s, first + n - 1)};
    }
  }

  /** The pages of space m, as pages of space n. */
  ghost function Renamed(pages: set<Page>, m: nat, n: nat): (copies: set<Page>)
  {
    set g | g in pages && g.sp == m :: Page(n, g.v)
  }

  lemma SubsetSize<T>(a: set<T>, b: set<T>)
    requires a <= b
    ensures |a| <= |b|
  {
    assert b == a + (b - a);
  }

  /** A set whose elements a list names has at most as many. */
  lemma {:induction false} ListedSize<T>(t: set<T>, names: seq<T>)
    requires forall x :: x in t ==> x in names
    ensures |t| <= |names|
  {
    if names != [] {
      var last := names[|names| - 1];
      ListedSize(t - {last}, names[..|names| - 1]);
      assert t - {last} + {last} >= t;
      SubsetSize(t, t - {last} + {last});
    }
  }

  /** A place above a page and not at its leaf is that of one of the four tables. */
  lemma AboveIsTable(g: Page, p: Path)
    requires Above(p, PagePath(g.v)) && Depth(p) < 4
    ensures Node(g.sp, p) in TablesAbove(g)
  {
    var q := PagePath(g.v);
    assert Depth(q) == 4 by { assert Depth(q.up.up.up.up) == 0 && Depth(q.up.up.up) == 1 && Depth(q.up.up) == 2; }
    assert p != q;
    assert Above(p, q.up);
    assert p == q.up || Above(p, q.up.up);
    assert p == q.up || p == q.up.up || Above(p, q.up.up.up);
    assert p == q.up || p == q.up.up || p == q.up.up.up || Above(p, Root);
  }

  lemma TablesAreAbove(g: Page, n: Node)
    requires n in TablesAbove(g)
    ensures n.sp == g.sp && Above(n.path, PagePath(g.v)) && Depth(n.path) < 4
  {
    var q := PagePath(g.v);
    assert Above(q.up, q) && Above(q.up.up, q) && Above(q.up.up.up, q) && Above(Root, q) by {
      assert Above(q.up, q.up) && Above(q.up.up, q.up.up) && Above(q.up.up, q.up);
      assert Above(q.up.up.up, q.up.up.up) && Above(q.up.up.up, q.up.up) && Above(q.up.up.up, q.up);
      RootAbove(q);
    }
    assert Depth(q.up.up.up) == 1 && Depth(q.up.up) == 2 && Depth(q.up) == 3;
  }

  /** An injective map into a set has at most as many keys as the set has elements. */
  lemma {:induction false} InjectionSize<A, B>(m: map<A, B>, t: set<B>)
    requires (forall a :: a in m ==> m[a] in t) && (forall a, b :: a in m && b in m && m[a] == m[b] ==> a == b)
    ensures |m| <= |t|
    decreases |m|
  {
    if m != map[] {
      var a :| a in m;
      var rest := m - {a};
      assert |rest| == |m| - 1 by { assert rest.Keys == m.Keys - {a}; }
      InjectionSize(rest, t - {m[a]});
    }
  }

  lemma {:induction false} OntoSize<A, B>(m: map<A, B>, t: set<B>)
    requires forall b :: b in t ==> exists a :: a in m && m[a] == b
    ensures |t| <= |m|
    decreases |m|
  {
    if t != {} {
      var b :| b in t;
      var a :| a in m && m[a] == b;
      var rest := m - {a};
      assert |rest| == |m| - 1 by { assert rest.Keys == m.Keys - {a}; }
      forall c | c in t - {b} ensures exists x :: x in rest && rest[x] == c {
        var x :| x in m && m[x] == c;
        assert x in rest;
      }
      OntoSize(rest, t - {b});
    }
  }
}
