/**
 * The genealogy container: a fixed stem, and a lookup from identifier to
 * node that the mutators update in place. Every mutation first checks all of
 * its failure conditions and only then changes anything, so a failed call
 * leaves the genealogy exactly as it was.
 */
module Genealogy {
  import opened Lineage

  /** The three failures a caller can tell apart. */
  datatype VirusError = VirusNotFound | VirusAlreadyCreated | TriedToRemoveStemVirus

  /** The outcome of a mutation: it happened, or it failed with an error and changed nothing. */
  datatype Outcome = Success | Failure(error: VirusError)

  /** The outcome of a query. */
  datatype Result<T> = Ok(value: T) | Err(error: VirusError)

  /** The identifiers of `s`, each once, in an unspecified order. */
  method Enumerate<Id>(s: set<Id>) returns (r: seq<Id>)
    ensures |r| == |s|
    ensures forall x :: x in r <==> x in s
    ensures forall i, j :: 0 <= i < j < |r| ==> r[i] != r[j]
  {
    r := [];
    var rest := s;
    while rest != {}
      invariant rest <= s
      invariant forall x :: x in r <==> x in s && x !in rest
      invariant forall i, j :: 0 <= i < j < |r| ==> r[i] != r[j]
      invariant |r| + |rest| == |s|
      decreases rest
    {
      var x :| x in rest;
      r := r + [x];
      rest := rest - {x};
    }
  }

  class VirusGenealogy<Id(==)> {
    /** The stem's identifier, fixed at construction. */
    const stem: Id
    /** The index: every live identifier and its node. */
    var nodes: Graph<Id>

    ghost predicate Valid()
      reads this
    {
      WellFormed(stem, nodes)
    }

    /** A genealogy holding the stem alone. */
    constructor (stemId: Id)
      ensures Valid() && StemIsRoot(stem, nodes)
      ensures stem == stemId && nodes == Initial(stemId)
    {
      stem := stemId;
      nodes := Initial(stemId);
    }

    /** The identifier the genealogy was constructed with. */
    function GetStemId(): (r: Id)
      ensures r == stem
    {
      stem
    }

    function Exists(id: Id): (b: bool)
      reads this
      ensures b <==> id in nodes
    {
      id in nodes
    }

    /** The virus stored under `id`. */
    function Lookup(id: Id): (r: Result<Virus<Id>>)
      reads this
      ensures r.Err? <==> id !in nodes
      ensures r.Err? ==> r.error == VirusNotFound
      ensures r.Ok? ==> r.value == nodes[id].virus
      ensures Valid() && r.Ok? ==> r.value.GetId() == id
    {
      if id in nodes then Ok(nodes[id].virus) else Err(VirusNotFound)
    }

    /** The direct children of `id`, each once, in an unspecified order. */
    method GetChildren(id: Id) returns (r: Result<seq<Id>>)
      ensures id !in nodes ==> r == Err(VirusNotFound)
      ensures id in nodes ==> r.Ok? && Enumerates(r.value, nodes[id].children)
    {
      if id !in nodes {
        return Err(VirusNotFound);
      }
      var ids := Enumerate(nodes[id].children);
      return Ok(ids);
    }

    /** The direct parents of `id`, each once, in an unspecified order. */
    method GetParents(id: Id) returns (r: Result<seq<Id>>)
      ensures id !in nodes ==> r == Err(VirusNotFound)
      ensures id in nodes ==> r.Ok? && Enumerates(r.value, nodes[id].parents)
    {
      if id !in nodes {
        return Err(VirusNotFound);
      }
      var ids := Enumerate(nodes[id].parents);
      return Ok(ids);
    }

    /** A new virus `id` below the one parent `parentId`. */
    method Create(id: Id, parentId: Id) returns (o: Outcome)
      requires Valid()
      modifies this
      ensures Valid()
      ensures id in old(nodes) ==> o == Failure(VirusAlreadyCreated) && nodes == old(nodes)
      ensures id !in old(nodes) && parentId !in old(nodes) ==> o == Failure(VirusNotFound) && nodes == old(nodes)
      ensures id !in old(nodes) && parentId in old(nodes) ==> o == Success && nodes == Created(old(nodes), id, {parentId})
    {
      o := CreateMany(id, [parentId]);
      assert (set p | p in [parentId]) == {parentId};
    }

    /**
     * A new virus `id` below every listed parent. The id already existing is
     * reported first; an empty list or a missing parent is VirusNotFound.
     */
    method CreateMany(id: Id, parentIds: seq<Id>) returns (o: Outcome)
      requires Valid()
      modifies this
      ensures Valid()
      ensures id in old(nodes) ==> o == Failure(VirusAlreadyCreated) && nodes == old(nodes)
      ensures id !in old(nodes) && (parentIds == [] || exists p :: p in parentIds && p !in old(nodes)) ==>
        o == Failure(VirusNotFound) && nodes == old(nodes)
      ensures id !in old(nodes) && parentIds != [] && (forall p :: p in parentIds ==> p in old(nodes)) ==>
        o == Success && nodes == Created(old(nodes), id, set p | p in parentIds)
    {
      if id in nodes {
        return Failure(VirusAlreadyCreated);
      }
      var present := AllExist(parentIds);
      if parentIds == [] || !present {
        return Failure(VirusNotFound);
      }
      Publish(id, parentIds);
      return Success;
    }

    /** Whether every listed identifier is present: the check `create` makes before it changes anything. */
    method AllExist(ids: seq<Id>) returns (b: bool)
      ensures b <==> forall p :: p in ids ==> p in nodes
    {
      var i := 0;
      while i < |ids|
        invariant 0 <= i <= |ids|
        invariant forall j :: 0 <= j < i ==> ids[j] in nodes
      {
        if ids[i] !in nodes {
          return false;
        }
        i := i + 1;
      }
      return true;
    }

    /** The new node `id` published and linked under each listed parent in turn. */
    method Publish(id: Id, parentIds: seq<Id>)
      requires Valid() && id !in nodes && parentIds != []
      requires forall p :: p in parentIds ==> p in nodes
      modifies this
      ensures Valid() && nodes == Created(old(nodes), id, set p | p in parentIds)
    {
      ghost var g0 := nodes;
      nodes := nodes[id := Node(Virus(id), {}, {})];
      assert nodes == Created(g0, id, {});
      var i := 0;
      ghost var linked: set<Id> := {};
      while i < |parentIds|
        invariant 0 <= i <= |parentIds|
        invariant forall q :: q in linked <==> q in parentIds[..i]
        invariant nodes == Created(g0, id, linked)
      {
        var p := parentIds[i];
        assert parentIds[..i + 1] == parentIds[..i] + [p];
        CreatedExtend(g0, id, linked, p);
        var pn := nodes[p];
        nodes := nodes[p := Node(pn.virus, pn.parents, pn.children + {id})];
        nodes := nodes[id := Node(Virus(id), nodes[id].parents + {p}, {})];
        linked := linked + {p};
        i := i + 1;
      }
      assert parentIds[..i] == parentIds;
      assert linked == set p | p in parentIds;
      assert parentIds[0] in linked;
      CreatedWellFormed(stem, g0, id, linked);
    }

    /** A further edge `parentId -> childId` between two existing viruses. */
    method Connect(childId: Id, parentId: Id) returns (o: Outcome)
      requires Valid()
      modifies this
      ensures Valid()
      ensures childId !in old(nodes) || parentId !in old(nodes) ==> o == Failure(VirusNotFound) && nodes == old(nodes)
      ensures childId in old(nodes) && parentId in old(nodes) ==> o == Success && nodes == Connected(old(nodes), childId, parentId)
    {
      if childId !in nodes || parentId !in nodes {
        return Failure(VirusNotFound);
      }
      ghost var g0 := nodes;
      var pn := nodes[parentId];
      nodes := nodes[parentId := Node(pn.virus, pn.parents, pn.children + {childId})];
      var cn := nodes[childId];
      nodes := nodes[childId := Node(cn.virus, cn.parents + {parentId}, cn.children)];
      assert nodes == Connected(g0, childId, parentId);
      ConnectedWellFormed(stem, g0, childId, parentId);
      return Success;
    }

    /**
     * `id` and every virus that thereby loses its last parent, taken out. The
     * stem cannot be removed.
     */
    method Remove(id: Id) returns (o: Outcome)
      requires Valid()
      modifies this
      ensures Valid()
      ensures id !in old(nodes) ==> o == Failure(VirusNotFound) && nodes == old(nodes)
      ensures id == stem ==> o == Failure(TriedToRemoveStemVirus) && nodes == old(nodes)
      ensures id in old(nodes) && id != stem ==> o == Success && nodes == Removed(stem, old(nodes), id)
    {
      if id !in nodes {
        return Failure(VirusNotFound);
      }
      if id == stem {
        return Failure(TriedToRemoveStemVirus);
      }
      ghost var g0 := nodes;
      WorklistStart(stem, g0, id);
      ghost var deleted: set<Id> := {};
      var pending := {id};
      while pending != {}
        invariant nodes == Without(g0, deleted)
        invariant Worklist(stem, g0, id, deleted, pending)
        decreases nodes.Keys
      {
        var x :| x in pending;
        var kids := nodes[x].children;
        WorklistStep(stem, g0, id, deleted, pending, x);
        Detach(x);
        deleted := deleted + {x};
        pending := (pending - {x}) + NewOrphans(stem, nodes, kids);
      }
      WorklistDone(stem, g0, id, deleted);
      RemovedWellFormed(stem, g0, id);
      return Success;
    }

    /** `x` taken out, and taken off the edge sets of each of its parents and children. */
    method Detach(x: Id)
      requires Symmetric(nodes) && x in nodes
      modifies this
      ensures nodes == Without(old(nodes), {x})
    {
      ghost var g0 := nodes;
      var around := (nodes[x].parents + nodes[x].children) - {x};
      nodes := nodes - {x};
      while around != {}
        invariant around <= nodes.Keys == g0.Keys - {x}
        invariant forall n :: n in nodes && n !in around ==> nodes[n] == Without(g0, {x})[n]
        invariant forall n :: n in around ==> nodes[n] == g0[n]
        decreases around
      {
        var y :| y in around;
        var v := nodes[y];
        nodes := nodes[y := Node(v.virus, v.parents - {x}, v.children - {x})];
        around := around - {y};
      }
    }
  }
}
