/**
 * The lineage graph of a virus genealogy, as a value.
 *
 * A graph maps every live identifier to its node: the virus stored there and
 * the identifiers of its direct parents and children. One identifier, the
 * stem, is fixed for the lifetime of the genealogy. The three mutations of the
 * genealogy are specified here as functions on graphs (Created, Connected,
 * Removed), and the lemmas of this module state what each of them promises:
 * the invariants they keep, how the cascade of `remove` decides which nodes
 * go, and that removing a freshly created leaf undoes its creation.
 */
module Lineage {

  /** The entity kept at a node: built from its identifier, and hands it back. */
  datatype Virus<Id> = Virus(id: Id)
  {
    function GetId(): Id { id }
  }

  /** A vertex: its virus, the ids of its direct parents and of its direct children. */
  datatype Node<Id> = Node(virus: Virus<Id>, parents: set<Id>, children: set<Id>)

  type Graph<Id> = map<Id, Node<Id>>

  /** Every edge is recorded at both of its ends, and both ends are nodes. */
  ghost predicate Symmetric<Id>(g: Graph<Id>)
  {
    && (forall p, c :: p in g && c in g[p].children ==> c in g && p in g[c].parents)
    && (forall c, p :: c in g && p in g[c].parents ==> p in g && c in g[p].children)
  }

  /** Every node holds the virus whose identifier is its key. */
  ghost predicate Indexed<Id>(g: Graph<Id>)
  {
    forall n :: n in g ==> g[n].virus.GetId() == n
  }

  /**
   * The invariant of a genealogy: the stem is present, the index agrees with
   * the viruses, edges are mutual, and every node but the stem is still owned
   * by at least one parent.
   */
  ghost predicate WellFormed<Id>(stem: Id, g: Graph<Id>)
  {
    && stem in g
    && Indexed(g)
    && Symmetric(g)
    && (forall n :: n in g && n != stem ==> g[n].parents != {})
  }

  /** The stem has no parents (true unless a caller connects the stem under some node). */
  ghost predicate StemIsRoot<Id>(stem: Id, g: Graph<Id>)
  {
    stem in g && g[stem].parents == {}
  }

  /** `s` lists the elements of `t`, each exactly once, in some order. */
  ghost predicate Enumerates<T>(s: seq<T>, t: set<T>)
  {
    && |s| == |t|
    && (forall i :: 0 <= i < |s| ==> s[i] in t)
    && (forall x :: x in t ==> x in s)
    && (forall i, j :: 0 <= i < j < |s| ==> s[i] != s[j])
  }

  /** The genealogy right after construction: the stem alone. */
  function Initial<Id>(stem: Id): (g: Graph<Id>)
    ensures WellFormed(stem, g) && StemIsRoot(stem, g)
    ensures g.Keys == {stem} && g[stem].parents == {} && g[stem].children == {}
  {
    map[stem := Node(Virus(stem), {}, {})]
  }

  // ---------------------------------------------------------------------------
  // create

  /** A new node `id` below every node of `ps`. */
  function Created<Id>(g: Graph<Id>, id: Id, ps: set<Id>): (r: Graph<Id>)
  {
    map n | n in g.Keys + {id} ::
      if n == id then Node(Virus(id), ps, {})
      else Node(g[n].virus, g[n].parents, if n in ps then g[n].children + {id} else g[n].children)
  }

  /** Creating a node under existing parents keeps the invariant and keeps the stem a root. */
  lemma CreatedWellFormed<Id>(stem: Id, g: Graph<Id>, id: Id, ps: set<Id>)
    requires WellFormed(stem, g) && id !in g && ps != {} && ps <= g.Keys
    ensures WellFormed(stem, Created(g, id, ps))
    ensures StemIsRoot(stem, g) ==> StemIsRoot(stem, Created(g, id, ps))
  {
    var r := Created(g, id, ps);
    forall p, c | p in r && c in r[p].children ensures c in r && p in r[c].parents {
      if c != id {
        assert p != id && c in g[p].children;
      }
    }
    forall c, p | c in r && p in r[c].parents ensures p in r && c in r[p].children {
      if c != id {
        assert p in g[c].parents;
      }
    }
  }

  /** Linking one more parent `p` under the new node `id`. */
  lemma CreatedExtend<Id>(g: Graph<Id>, id: Id, ps: set<Id>, p: Id)
    requires id !in g && p in g
    ensures
      var c := Created(g, id, ps);
      var linked := c[p := Node(c[p].virus, c[p].parents, c[p].children + {id})];
      linked[id := Node(Virus(id), linked[id].parents + {p}, {})] == Created(g, id, ps + {p})
  {
    var c := Created(g, id, ps);
    var linked := c[p := Node(c[p].virus, c[p].parents, c[p].children + {id})];
    var l, r := linked[id := Node(Virus(id), linked[id].parents + {p}, {})], Created(g, id, ps + {p});
    assert l.Keys == r.Keys;
    forall n | n in l ensures l[n] == r[n] {
    }
  }

  /**
   * What `create` does to every node: the new node has exactly the listed
   * parents and no children, each listed parent gains it as a child, and
   * nothing else changes.
   */
  lemma CreatedLinks<Id>(g: Graph<Id>, id: Id, ps: set<Id>)
    requires Symmetric(g) && id !in g && ps <= g.Keys
    ensures Created(g, id, ps).Keys == g.Keys + {id}
    ensures Created(g, id, ps)[id].parents == ps && Created(g, id, ps)[id].children == {}
    ensures Created(g, id, ps)[id].virus.GetId() == id
    ensures forall n :: n in g ==>
      && Created(g, id, ps)[n].virus == g[n].virus
      && Created(g, id, ps)[n].parents == g[n].parents
      && (id in Created(g, id, ps)[n].children <==> n in ps)
      && Created(g, id, ps)[n].children - {id} == g[n].children - {id}
  {
  }

  // ---------------------------------------------------------------------------
  // connect

  /** The edge `parent -> child` added between two existing nodes (a self-loop when they coincide). */
  function Connected<Id>(g: Graph<Id>, child: Id, parent: Id): (r: Graph<Id>)
    requires child in g && parent in g
  {
    map n | n in g ::
      Node(g[n].virus,
           if n == child then g[n].parents + {parent} else g[n].parents,
           if n == parent then g[n].children + {child} else g[n].children)
  }

  /** Connecting keeps the invariant; it keeps the stem a root unless the stem is the child. */
  lemma ConnectedWellFormed<Id>(stem: Id, g: Graph<Id>, child: Id, parent: Id)
    requires WellFormed(stem, g) && child in g && parent in g
    ensures WellFormed(stem, Connected(g, child, parent))
    ensures StemIsRoot(stem, g) && child != stem ==> StemIsRoot(stem, Connected(g, child, parent))
    ensures parent in Connected(g, child, parent)[child].parents
    ensures child in Connected(g, child, parent)[parent].children
  {
    var r := Connected(g, child, parent);
    forall p, c | p in r && c in r[p].children ensures c in r && p in r[c].parents {
      if !(p == parent && c == child) {
        assert c in g[p].children;
      }
    }
    forall c, p | c in r && p in r[c].parents ensures p in r && c in r[p].children {
      if !(p == parent && c == child) {
        assert p in g[c].parents;
      }
    }
  }

  /** Connecting an edge that is already there changes nothing. */
  lemma ConnectedIdempotent<Id>(g: Graph<Id>, child: Id, parent: Id)
    requires Symmetric(g) && child in g && parent in g && child in g[parent].children
    ensures Connected(g, child, parent) == g
  {
    var r := Connected(g, child, parent);
    assert parent in g[child].parents;
    assert g[child].parents + {parent} == g[child].parents;
    assert g[parent].children + {child} == g[parent].children;
    forall n | n in g ensures r[n] == g[n] {
    }
    assert r.Keys == g.Keys;
  }

  // ---------------------------------------------------------------------------
  // remove

  /** The graph with the nodes of `d` and every edge touching them taken out. */
  function Without<Id>(g: Graph<Id>, d: set<Id>): (r: Graph<Id>)
  {
    map n | n in g && n !in d :: Node(g[n].virus, g[n].parents - d, g[n].children - d)
  }

  /** Taking out `a` and then `b` is taking out both at once. */
  lemma WithoutWithout<Id>(g: Graph<Id>, a: set<Id>, b: set<Id>)
    ensures Without(Without(g, a), b) == Without(g, a + b)
  {
    var l, r := Without(Without(g, a), b), Without(g, a + b);
    assert l.Keys == r.Keys;
    forall n | n in l ensures l[n] == r[n] {
      assert g[n].parents - a - b == g[n].parents - (a + b);
      assert g[n].children - a - b == g[n].children - (a + b);
    }
  }

  /** Taking nodes out keeps edges mutual and viruses at their keys. */
  lemma WithoutSymmetric<Id>(g: Graph<Id>, d: set<Id>)
    requires Symmetric(g) && Indexed(g)
    ensures Symmetric(Without(g, d)) && Indexed(Without(g, d))
  {
  }

  /**
   * Once `d` is taken out, a node is left parentless exactly when it lay
   * outside `d` and had all of its parents in `d`.
   */
  lemma ParentlessWithout<Id>(g: Graph<Id>, d: set<Id>, n: Id)
    ensures n in Without(g, d) && Without(g, d)[n].parents == {} <==> n in g && n !in d && g[n].parents <= d
  {
    if n in g && n !in d {
      assert forall p :: p in g[n].parents ==> p in d || p in Without(g, d)[n].parents;
    }
  }

  /** Nodes outside `d` that are not the stem and all of whose parents are in `d`. */
  function Orphans<Id>(stem: Id, g: Graph<Id>, d: set<Id>): (o: set<Id>)
    ensures o <= g.Keys && o !! d
  {
    set n | n in g && n != stem && n !in d && g[n].parents <= d
  }

  /**
   * The cascade, round by round: keep adding the nodes whose parents are all
   * gone until no node is left without a parent.
   */
  function Cascade<Id>(stem: Id, g: Graph<Id>, d: set<Id>): (r: set<Id>)
    requires d <= g.Keys
    ensures d <= r <= g.Keys
    decreases g.Keys - d
  {
    var o := Orphans(stem, g, d);
    if o == {} then d else Cascade(stem, g, d + o)
  }

  /** The nodes that `remove(t)` discards: `t` and everything that loses its last parent as a result. */
  function Doomed<Id>(stem: Id, g: Graph<Id>, t: Id): (r: set<Id>)
    requires t in g
  {
    Cascade(stem, g, {t})
  }

  /** The graph after `remove(t)`. */
  function Removed<Id>(stem: Id, g: Graph<Id>, t: Id): (r: Graph<Id>)
    requires t in g
  {
    Without(g, Doomed(stem, g, t))
  }

  /** Every node other than the stem whose parents all lie in `s` lies in `s` itself. */
  ghost predicate ClosedUnder<Id>(stem: Id, g: Graph<Id>, s: set<Id>)
  {
    forall n :: n in g && n != stem && g[n].parents <= s ==> n in s
  }

  lemma {:induction false} CascadeClosed<Id>(stem: Id, g: Graph<Id>, d: set<Id>)
    requires d <= g.Keys
    ensures ClosedUnder(stem, g, Cascade(stem, g, d))
    decreases g.Keys - d
  {
    var o := Orphans(stem, g, d);
    if o == {} {
      forall n | n in g && n != stem && g[n].parents <= d ensures n in d {
        assert n in d || n in o;
      }
    } else {
      CascadeClosed(stem, g, d + o);
    }
  }

  lemma {:induction false} CascadeLeast<Id>(stem: Id, g: Graph<Id>, d: set<Id>, s: set<Id>)
    requires d <= s <= g.Keys && ClosedUnder(stem, g, s)
    ensures Cascade(stem, g, d) <= s
    decreases g.Keys - d
  {
    var o := Orphans(stem, g, d);
    if o != {} {
      assert o <= s;
      CascadeLeast(stem, g, d + o, s);
    }
  }

  lemma {:induction false} CascadeForced<Id>(stem: Id, g: Graph<Id>, d: set<Id>)
    requires d <= g.Keys
    ensures forall n :: n in Cascade(stem, g, d) && n !in d ==> n != stem && g[n].parents <= Cascade(stem, g, d)
    decreases g.Keys - d
  {
    var o := Orphans(stem, g, d);
    if o != {} {
      CascadeForced(stem, g, d + o);
    }
  }

  /**
   * `remove(t)` discards `t`, only nodes of the graph, and never the stem.
   * These are the first facts of DoomedIsLeastClosed, kept apart because
   * they follow from one use of CascadeLeast and are all that most callers
   * need; DoomedIsLeastClosed proves them by calling this lemma.
   */
  lemma DoomedSpares<Id>(stem: Id, g: Graph<Id>, t: Id)
    requires t in g && t != stem
    ensures t in Doomed(stem, g, t) && Doomed(stem, g, t) <= g.Keys && stem !in Doomed(stem, g, t)
  {
    CascadeLeast(stem, g, {t}, g.Keys - {stem});
  }

  /**
   * `Doomed(t)` is the least set that holds `t` and every non-stem node all of
   * whose parents it holds; every node in it other than `t` lost all of its
   * parents to it; the stem is never in it.
   */
  lemma DoomedIsLeastClosed<Id>(stem: Id, g: Graph<Id>, t: Id)
    requires t in g && t != stem
    ensures t in Doomed(stem, g, t) && Doomed(stem, g, t) <= g.Keys
    ensures stem !in Doomed(stem, g, t)
    ensures ClosedUnder(stem, g, Doomed(stem, g, t))
    ensures forall n :: n in Doomed(stem, g, t) && n != t ==> g[n].parents <= Doomed(stem, g, t)
    ensures forall s :: t in s && s <= g.Keys && ClosedUnder(stem, g, s) ==> Doomed(stem, g, t) <= s
  {
    CascadeClosed(stem, g, {t});
    CascadeForced(stem, g, {t});
    forall s | t in s && s <= g.Keys && ClosedUnder(stem, g, s) ensures Doomed(stem, g, t) <= s {
      CascadeLeast(stem, g, {t}, s);
    }
    DoomedSpares(stem, g, t);
  }

  /**
   * Removing a node other than the stem keeps the invariant, takes the node
   * out, keeps the stem, and keeps the stem a root.
   */
  lemma RemovedWellFormed<Id>(stem: Id, g: Graph<Id>, t: Id)
    requires WellFormed(stem, g) && t in g && t != stem
    ensures WellFormed(stem, Removed(stem, g, t))
    ensures StemIsRoot(stem, g) ==> StemIsRoot(stem, Removed(stem, g, t))
    ensures t !in Removed(stem, g, t) && Removed(stem, g, t).Keys <= g.Keys
  {
    DoomedSpares(stem, g, t);
    CascadeClosed(stem, g, {t});
    var d := Doomed(stem, g, t);
    var r := Removed(stem, g, t);
    WithoutSymmetric(g, d);
    forall n | n in r && n != stem ensures r[n].parents != {} {
      assert !(g[n].parents <= d);
      var p :| p in g[n].parents && p !in d;
      assert p in r[n].parents;
    }
  }

  /**
   * The cascade: a node other than the target and the stem survives
   * `remove(t)` exactly when at least one of its parents survives.
   */
  lemma RemovedSurvivesIff<Id>(stem: Id, g: Graph<Id>, t: Id, n: Id)
    requires Symmetric(g) && t in g && t != stem
    requires n in g && n != t && n != stem
    ensures n in Removed(stem, g, t) <==> exists p :: p in g[n].parents && p in Removed(stem, g, t)
  {
    DoomedSpares(stem, g, t);
    CascadeClosed(stem, g, {t});
    CascadeForced(stem, g, {t});
    var d := Doomed(stem, g, t);
    var r := Removed(stem, g, t);
    assert forall m :: m in r <==> m in g && m !in d;
    if n !in d {
      var p :| p in g[n].parents && p !in d;
      assert p in r;
    } else {
      assert g[n].parents <= d;
    }
  }

  /**
   * The edges of a survivor after `remove(t)`: exactly its former edges to
   * other survivors. In particular `t` is no longer anyone's parent or child.
   */
  lemma RemovedEdges<Id>(stem: Id, g: Graph<Id>, t: Id, n: Id)
    requires Symmetric(g) && t in g && t != stem && n in Removed(stem, g, t)
    ensures n in g && Removed(stem, g, t)[n].virus == g[n].virus
    ensures forall p :: p in Removed(stem, g, t)[n].parents <==> p in g[n].parents && p in Removed(stem, g, t)
    ensures forall c :: c in Removed(stem, g, t)[n].children <==> c in g[n].children && c in Removed(stem, g, t)
    ensures t !in Removed(stem, g, t)[n].parents && t !in Removed(stem, g, t)[n].children
  {
    DoomedSpares(stem, g, t);
    var d, r := Doomed(stem, g, t), Removed(stem, g, t);
    assert forall m :: m in r <==> m in g && m !in d;
    assert r[n].parents == g[n].parents - d && r[n].children == g[n].children - d;
  }

  /** Removing a node that was just created as a leaf gives back the graph as it was. */
  lemma RemoveUndoesCreate<Id>(stem: Id, g: Graph<Id>, id: Id, ps: set<Id>)
    requires WellFormed(stem, g) && id !in g && ps <= g.Keys
    ensures id in Created(g, id, ps)
    ensures Removed(stem, Created(g, id, ps), id) == g
  {
    var c := Created(g, id, ps);
    assert Orphans(stem, c, {id}) == {} by {
      forall n | n in c && n != stem && n != id ensures !(c[n].parents <= {id}) {
        var p :| p in g[n].parents;
        assert p != id;
      }
    }
    assert Doomed(stem, c, id) == {id};
    var r := Removed(stem, c, id);
    assert r.Keys == g.Keys;
    forall n | n in g ensures r[n] == g[n] {
      assert id !in g[n].children && id !in g[n].parents;
      assert c[n].children - {id} == g[n].children;
      assert c[n].parents - {id} == g[n].parents;
    }
  }

  // ---------------------------------------------------------------------------
  // The worklist that `remove` runs: `deleted` holds the nodes taken out so
  // far, `pending` those known to go but still present.

  /** The non-stem nodes among `kids` that `g` leaves without a parent. */
  function NewOrphans<Id>(stem: Id, g: Graph<Id>, kids: set<Id>): (r: set<Id>)
  {
    set c | c in kids && c in g && c != stem && g[c].parents == {}
  }

  /**
   * What holds between the rounds of the worklist of `remove(t)`: nothing
   * deleted or pending is spared by the cascade, `t` is deleted or pending,
   * and every parentless non-stem node still present is pending.
   */
  ghost predicate Worklist<Id>(stem: Id, g: Graph<Id>, t: Id, deleted: set<Id>, pending: set<Id>)
    requires t in g
  {
    && deleted <= Doomed(stem, g, t) && pending <= Doomed(stem, g, t)
    && deleted !! pending && t in deleted + pending
    && pending <= Without(g, deleted).Keys
    && forall n :: n in Without(g, deleted) && n != stem && Without(g, deleted)[n].parents == {} ==> n in pending
  }

  lemma WorklistStart<Id>(stem: Id, g: Graph<Id>, t: Id)
    requires WellFormed(stem, g) && t in g && t != stem
    ensures Without(g, {}) == g && Worklist(stem, g, t, {}, {t})
  {
    DoomedSpares(stem, g, t);
    forall n | n in g ensures g[n] == Without(g, {})[n] {
      assert g[n].parents - {} == g[n].parents;
      assert g[n].children - {} == g[n].children;
    }
  }

  /**
   * One round: taking out a pending node `x` and adding the children it left
   * parentless keeps the worklist invariant.
   */
  lemma WorklistStep<Id>(stem: Id, g: Graph<Id>, t: Id, deleted: set<Id>, pending: set<Id>, x: Id)
    requires Symmetric(g) && Indexed(g) && t in g && t != stem
    requires Worklist(stem, g, t, deleted, pending) && x in pending
    ensures Symmetric(Without(g, deleted)) && x in Without(g, deleted)
    ensures Without(Without(g, deleted), {x}) == Without(g, deleted + {x})
    ensures Worklist(stem, g, t, deleted + {x},
      (pending - {x}) + NewOrphans(stem, Without(g, deleted + {x}), Without(g, deleted)[x].children))
  {
    CascadeClosed(stem, g, {t});
    WithoutSymmetric(g, deleted);
    WithoutWithout(g, deleted, {x});
    var before, after := Without(g, deleted), Without(g, deleted + {x});
    var orphans := NewOrphans(stem, after, before[x].children);
    forall n | n in after && n != stem && after[n].parents == {} ensures n in (pending - {x}) + orphans {
      if x in before[n].parents {
        assert n in before[x].children;
      } else {
        assert before[n].parents == after[n].parents;
      }
    }
    forall c | c in orphans ensures c in Doomed(stem, g, t) {
      ParentlessWithout(g, deleted + {x}, c);
    }
  }

  /** When nothing is pending, the worklist has deleted exactly the doomed nodes. */
  lemma WorklistDone<Id>(stem: Id, g: Graph<Id>, t: Id, deleted: set<Id>)
    requires t in g && t != stem && Worklist(stem, g, t, deleted, {})
    ensures deleted == Doomed(stem, g, t)
  {
    forall n | n in g && n != stem && g[n].parents <= deleted ensures n in deleted {
      ParentlessWithout(g, deleted, n);
    }
    CascadeLeast(stem, g, {t}, deleted);
  }
}
