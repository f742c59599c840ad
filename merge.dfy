/**
 * mergeGroups: last-write-wins reconciliation of the local and the remote group lists.
 *
 * The source fills a `Map` keyed by id, first with every remote record, then offering
 * every local record, and returns the map's values. A JavaScript Map keeps its keys in
 * first-insertion order and `set` on a present key replaces the value in place, so the
 * map is modelled as the sequence of its values, one per id.
 */
module Merge {
  import opened Wrappers
  import opened Groups

  /** `merged.set(g.id, g)`. */
  function Put(t: seq<Group>, g: Group): seq<Group> {
    match Find(t, g.id)
    case Some(i) => t[i := g]
    case None => t + [g]
  }

  /** The map after the first `forEach`, over the remote records. */
  function RemotePass(remote: seq<Group>): seq<Group>
    decreases |remote|
  {
    if |remote| == 0 then []
    else Put(RemotePass(remote[..|remote| - 1]), remote[|remote| - 1])
  }

  /** One step of the second `forEach`: the local record goes in when its id is new or it is strictly later. */
  function Offer(t: seq<Group>, g: Group): seq<Group> {
    match Find(t, g.id)
    case None => t + [g]
    case Some(i) => if g.lastModified > t[i].lastModified then t[i := g] else t
  }

  /** The map after offering every local record, in order, to `t`. */
  function LocalPass(t: seq<Group>, local: seq<Group>): seq<Group>
    decreases |local|
  {
    if |local| == 0 then t
    else Offer(LocalPass(t, local[..|local| - 1]), local[|local| - 1])
  }

  /** `Array.from(merged.values())` at the end of mergeGroups. */
  function Merged(local: seq<Group>, remote: seq<Group>): seq<Group> {
    LocalPass(RemotePass(remote), local)
  }

  /** `slot` is the key index of the map whose values are `entries`. */
  ghost predicate Indexed(entries: seq<Group>, slot: map<Id, nat>) {
    && UniqueIds(entries)
    && (forall id :: id in slot <==> HasId(entries, id))
    && (forall id :: id in slot ==> slot[id] < |entries| && entries[slot[id]].id == id)
  }

  /** mergeGroups, with the Map as a value list plus a key index, filled by two loops. */
  method MergeGroups(local: seq<Group>, remote: seq<Group>) returns (merged: seq<Group>)
    ensures merged == Merged(local, remote)
  {
    var entries: seq<Group> := [];
    var slot: map<Id, nat> := map[];
    var i := 0;
    while i < |remote|
      invariant 0 <= i <= |remote|
      invariant entries == RemotePass(remote[..i])
      invariant Indexed(entries, slot)
    {
      var g := remote[i];
      IndexedPut(entries, slot, g);
      if g.id in slot {
        entries := entries[slot[g.id] := g];
      } else {
        slot := slot[g.id := |entries|];
        entries := entries + [g];
      }
      assert remote[..i + 1][..i] == remote[..i];
      i := i + 1;
    }
    assert remote[..i] == remote;
    var j := 0;
    while j < |local|
      invariant 0 <= j <= |local|
      invariant entries == LocalPass(RemotePass(remote), local[..j])
      invariant Indexed(entries, slot)
    {
      var g := local[j];
      IndexedOffer(entries, slot, g);
      if g.id !in slot {
        slot := slot[g.id := |entries|];
        entries := entries + [g];
      } else if g.lastModified > entries[slot[g.id]].lastModified {
        entries := entries[slot[g.id] := g];
      }
      assert local[..j + 1][..j] == local[..j];
      j := j + 1;
    }
    assert local[..j] == local;
    merged := entries;
  }

  lemma IndexedAppend(entries: seq<Group>, slot: map<Id, nat>, g: Group)
    requires Indexed(entries, slot) && g.id !in slot
    ensures Find(entries, g.id) == None
    ensures Indexed(entries + [g], slot[g.id := |entries|])
  {
    var e, s := entries + [g], slot[g.id := |entries|];
    forall id ensures id in s <==> HasId(e, id) {
      if HasId(e, id) && id != g.id {
        var k :| 0 <= k < |e| && e[k].id == id;
        assert entries[k].id == id;
      }
      if id in s { assert e[s[id]].id == id; }
    }
  }

  lemma IndexedReplace(entries: seq<Group>, slot: map<Id, nat>, g: Group)
    requires Indexed(entries, slot) && g.id in slot
    ensures Find(entries, g.id) == Some(slot[g.id])
    ensures Indexed(entries[slot[g.id] := g], slot)
  {
    FindUnique(entries, slot[g.id]);
    var e := entries[slot[g.id] := g];
    forall id ensures id in slot <==> HasId(e, id) {
      if HasId(e, id) {
        var k :| 0 <= k < |e| && e[k].id == id;
        assert entries[k].id == id;
      }
      if id in slot { assert e[slot[id]].id == id; }
    }
  }

  /** One step of the first loop is `Put`, and keeps the index. */
  lemma IndexedPut(entries: seq<Group>, slot: map<Id, nat>, g: Group)
    requires Indexed(entries, slot)
    ensures g.id in slot ==> Put(entries, g) == entries[slot[g.id] := g]
    ensures g.id in slot ==> Indexed(entries[slot[g.id] := g], slot)
    ensures g.id !in slot ==> Put(entries, g) == entries + [g]
    ensures g.id !in slot ==> Indexed(entries + [g], slot[g.id := |entries|])
  {
    if g.id in slot { IndexedReplace(entries, slot, g); } else { IndexedAppend(entries, slot, g); }
  }

  /** One step of the second loop is `Offer`, and keeps the index. */
  lemma IndexedOffer(entries: seq<Group>, slot: map<Id, nat>, g: Group)
    requires Indexed(entries, slot)
    ensures g.id in slot && g.lastModified > entries[slot[g.id]].lastModified ==>
              Offer(entries, g) == entries[slot[g.id] := g]
    ensures g.id in slot && g.lastModified <= entries[slot[g.id]].lastModified ==>
              Offer(entries, g) == entries
    ensures g.id in slot ==> Indexed(entries[slot[g.id] := g], slot)
    ensures g.id !in slot ==> Offer(entries, g) == entries + [g]
    ensures g.id !in slot ==> Indexed(entries + [g], slot[g.id := |entries|])
  {
    if g.id in slot { IndexedReplace(entries, slot, g); } else { IndexedAppend(entries, slot, g); }
  }

  // ---------------------------------------------------------------------------
  // Ids: the result holds every id of either input, each exactly once.

  lemma IdSetSnoc(s: seq<Group>, g: Group)
    ensures IdSet(s + [g]) == IdSet(s) + {g.id}
  {
    var t := s + [g];
    forall id | id in IdSet(t) ensures id in IdSet(s) + {g.id} {
      var i :| 0 <= i < |t| && t[i].id == id;
      if i < |s| { assert s[i].id == id; }
    }
    forall id | id in IdSet(s) + {g.id} ensures id in IdSet(t) {
      if id != g.id {
        var i :| 0 <= i < |s| && s[i].id == id;
        assert t[i].id == id;
      } else {
        assert t[|s|].id == id;
      }
    }
  }

  lemma IdSetPrefix(s: seq<Group>)
    requires |s| > 0
    ensures IdSet(s) == IdSet(s[..|s| - 1]) + {s[|s| - 1].id}
  {
    assert s == s[..|s| - 1] + [s[|s| - 1]];
    IdSetSnoc(s[..|s| - 1], s[|s| - 1]);
  }

  lemma ReplaceKeepsIds(t: seq<Group>, i: nat, g: Group)
    requires UniqueIds(t) && i < |t| && t[i].id == g.id
    ensures UniqueIds(t[i := g]) && IdSet(t[i := g]) == IdSet(t)
  {
    var u := t[i := g];
    forall id | id in IdSet(u) ensures id in IdSet(t) {
      var k :| 0 <= k < |u| && u[k].id == id;
      assert t[k].id == id;
    }
    forall id | id in IdSet(t) ensures id in IdSet(u) {
      var k :| 0 <= k < |t| && t[k].id == id;
      assert u[k].id == id;
    }
  }

  lemma AppendKeepsUnique(t: seq<Group>, g: Group)
    requires UniqueIds(t) && !HasId(t, g.id)
    ensures UniqueIds(t + [g]) && IdSet(t + [g]) == IdSet(t) + {g.id}
  {
    IdSetSnoc(t, g);
  }

  lemma PutIds(t: seq<Group>, g: Group)
    requires UniqueIds(t)
    ensures UniqueIds(Put(t, g)) && IdSet(Put(t, g)) == IdSet(t) + {g.id}
  {
    match Find(t, g.id)
    case Some(i) =>
      ReplaceKeepsIds(t, i, g);
      assert g.id in IdSet(t);
    case None =>
      AppendKeepsUnique(t, g);
  }

  lemma OfferIds(t: seq<Group>, g: Group)
    requires UniqueIds(t)
    ensures UniqueIds(Offer(t, g)) && IdSet(Offer(t, g)) == IdSet(t) + {g.id}
  {
    match Find(t, g.id)
    case Some(i) =>
      ReplaceKeepsIds(t, i, g);
      assert g.id in IdSet(t);
    case None =>
      AppendKeepsUnique(t, g);
  }

  lemma {:induction false} RemotePassIds(remote: seq<Group>)
    ensures UniqueIds(RemotePass(remote)) && IdSet(RemotePass(remote)) == IdSet(remote)
    decreases |remote|
  {
    if |remote| > 0 {
      var init := remote[..|remote| - 1];
      RemotePassIds(init);
      PutIds(RemotePass(init), remote[|remote| - 1]);
      IdSetPrefix(remote);
    }
  }

  lemma {:induction false} LocalPassIds(t: seq<Group>, local: seq<Group>)
    requires UniqueIds(t)
    ensures UniqueIds(LocalPass(t, local))
    ensures IdSet(LocalPass(t, local)) == IdSet(t) + IdSet(local)
    decreases |local|
  {
    if |local| > 0 {
      var init := local[..|local| - 1];
      LocalPassIds(t, init);
      OfferIds(LocalPass(t, init), local[|local| - 1]);
      IdSetPrefix(local);
    }
  }

  /** The merged list holds exactly the ids of both inputs, none of them twice. */
  lemma MergedIds(local: seq<Group>, remote: seq<Group>)
    ensures UniqueIds(Merged(local, remote))
    ensures IdSet(Merged(local, remote)) == IdSet(local) + IdSet(remote)
  {
    RemotePassIds(remote);
    LocalPassIds(RemotePass(remote), local);
  }

  // ---------------------------------------------------------------------------
  // A reference definition for collections whose ids are unique: the remote records
  // in remote order, each replaced by its local counterpart when that is strictly
  // later, followed by the local-only records in local order.

  /** The record that stands for remote record `r` once the local records are offered. */
  function Resolve(r: Group, local: seq<Group>): Group {
    match Lookup(local, r.id)
    case None => r
    case Some(l) => if l.lastModified > r.lastModified then l else r
  }

  function ResolveAll(remote: seq<Group>, local: seq<Group>): (r: seq<Group>)
    ensures |r| == |remote|
  {
    seq(|remote|, i requires 0 <= i < |remote| => Resolve(remote[i], local))
  }

  /** The local records whose id the remote list lacks, in local order. */
  function LocalOnly(local: seq<Group>, remote: seq<Group>): seq<Group>
    decreases |local|
  {
    if |local| == 0 then []
    else
      var last := local[|local| - 1];
      LocalOnly(local[..|local| - 1], remote) + (if HasId(remote, last.id) then [] else [last])
  }

  function Reference(local: seq<Group>, remote: seq<Group>): seq<Group> {
    ResolveAll(remote, local) + LocalOnly(local, remote)
  }

  lemma {:induction false} RemotePassUnique(remote: seq<Group>)
    requires UniqueIds(remote)
    ensures RemotePass(remote) == remote
    decreases |remote|
  {
    if |remote| > 0 {
      var init := remote[..|remote| - 1];
      RemotePassUnique(init);
      assert !HasId(init, remote[|remote| - 1].id);
      assert init + [remote[|remote| - 1]] == remote;
    }
  }

  lemma LookupSnocOther(p: seq<Group>, g: Group, id: Id)
    requires g.id != id
    ensures Lookup(p + [g], id) == Lookup(p, id)
  {
    assert (p + [g])[..|p|] == p;
  }

  /** A new local record changes only the resolution of the remote record with its id. */
  lemma ResolveAllSnocShared(remote: seq<Group>, p: seq<Group>, g: Group, i: nat)
    requires UniqueIds(remote) && i < |remote| && remote[i].id == g.id
    ensures ResolveAll(remote, p + [g]) == ResolveAll(remote, p)[i := Resolve(remote[i], p + [g])]
  {
    forall k | 0 <= k < |remote| && k != i
      ensures ResolveAll(remote, p + [g])[k] == ResolveAll(remote, p)[k]
    {
      LookupSnocOther(p, g, remote[k].id);
    }
  }

  lemma LocalOnlySnocShared(p: seq<Group>, g: Group, remote: seq<Group>)
    requires HasId(remote, g.id)
    ensures LocalOnly(p + [g], remote) == LocalOnly(p, remote)
  {
    assert (p + [g])[..|p|] == p;
  }

  /** Offering a local record whose id the remote list has: only that remote slot can change. */
  lemma OfferShared(remote: seq<Group>, p: seq<Group>, g: Group, i: nat)
    requires UniqueIds(remote) && UniqueIds(Reference(p, remote))
    requires !HasId(p, g.id)
    requires i < |remote| && remote[i].id == g.id
    ensures Offer(Reference(p, remote), g) == Reference(p + [g], remote)
  {
    var t, q := Reference(p, remote), p + [g];
    assert t[i] == remote[i];
    FindUnique(t, i);
    assert Lookup(q, g.id) == Some(g);
    ResolveAllSnocShared(remote, p, g, i);
    LocalOnlySnocShared(p, g, remote);
    assert Reference(q, remote) == t[i := Resolve(remote[i], q)];
  }

  /** Offering a local record whose id is new: it is appended to the local-only part. */
  lemma OfferFresh(remote: seq<Group>, p: seq<Group>, g: Group)
    requires IdSet(Reference(p, remote)) == IdSet(remote) + IdSet(p)
    requires !HasId(p, g.id) && !HasId(remote, g.id)
    ensures Offer(Reference(p, remote), g) == Reference(p + [g], remote)
  {
    var t, q := Reference(p, remote), p + [g];
    assert q[..|q| - 1] == p;
    IdSetHasId(t, g.id);
    IdSetHasId(remote, g.id);
    IdSetHasId(p, g.id);
    forall k | 0 <= k < |remote|
      ensures Resolve(remote[k], q) == Resolve(remote[k], p)
    {
      LookupSnocOther(p, g, remote[k].id);
    }
    assert ResolveAll(remote, q) == ResolveAll(remote, p);
  }

  lemma {:induction false} LocalPassReference(remote: seq<Group>, local: seq<Group>, n: nat)
    requires UniqueIds(remote) && UniqueIds(local) && n <= |local|
    ensures LocalPass(remote, local[..n]) == Reference(local[..n], remote)
  {
    if n == 0 {
      assert local[..0] == [];
      assert ResolveAll(remote, []) == remote;
    } else {
      var p, g := local[..n - 1], local[n - 1];
      LocalPassReference(remote, local, n - 1);
      assert local[..n][..n - 1] == p && local[..n] == p + [g];
      assert UniqueIds(p + [g]);
      LocalPassIds(remote, p);
      assert !HasId(p, g.id);
      if HasId(remote, g.id) {
        var i :| 0 <= i < |remote| && remote[i].id == g.id;
        OfferShared(remote, p, g, i);
      } else {
        OfferFresh(remote, p, g);
      }
    }
  }

  /** For collections with unique ids, mergeGroups computes the reference definition. */
  lemma MergedReference(local: seq<Group>, remote: seq<Group>)
    requires UniqueIds(local) && UniqueIds(remote)
    ensures Merged(local, remote) == Reference(local, remote)
  {
    RemotePassUnique(remote);
    LocalPassReference(remote, local, |local|);
    assert local[..|local|] == local;
  }

  lemma {:induction false} LocalOnlyHas(local: seq<Group>, remote: seq<Group>, j: nat)
    requires j < |local| && !HasId(remote, local[j].id)
    ensures exists p :: 0 <= p < |LocalOnly(local, remote)| && LocalOnly(local, remote)[p] == local[j]
    decreases |local|
  {
    var init := local[..|local| - 1];
    if j < |local| - 1 {
      LocalOnlyHas(init, remote, j);
      var p :| 0 <= p < |LocalOnly(init, remote)| && LocalOnly(init, remote)[p] == init[j];
      assert LocalOnly(local, remote)[p] == local[j];
    } else {
      assert LocalOnly(local, remote)[|LocalOnly(init, remote)|] == local[j];
    }
  }

  // ---------------------------------------------------------------------------
  // Last-write-wins, per id.

  /** The record kept for one id: the local one only when it is strictly later. */
  function Winner(mine: Option<Group>, theirs: Option<Group>): Option<Group> {
    match mine
    case None => theirs
    case Some(l) =>
      match theirs
      case None => mine
      case Some(r) => if l.lastModified > r.lastModified then mine else theirs
  }

  /**
   * For every id: absent from both inputs, absent from the result; present on one side
   * only, that side's record unchanged; present on both, the local record only when its
   * lastModified is strictly later, the remote one on a tie or an earlier time.
   */
  lemma MergeLastWriteWins(local: seq<Group>, remote: seq<Group>, id: Id)
    requires UniqueIds(local) && UniqueIds(remote)
    ensures Lookup(Merged(local, remote), id) == Winner(Lookup(local, id), Lookup(remote, id))
  {
    var m := Merged(local, remote);
    MergedReference(local, remote);
    MergedIds(local, remote);
    if HasId(remote, id) {
      var i :| 0 <= i < |remote| && remote[i].id == id;
      FindUnique(remote, i);
      assert m[i] == Resolve(remote[i], local);
      FindUnique(m, i);
    } else if HasId(local, id) {
      var j :| 0 <= j < |local| && local[j].id == id;
      FindUnique(local, j);
      LocalOnlyHas(local, remote, j);
      var p :| 0 <= p < |LocalOnly(local, remote)| && LocalOnly(local, remote)[p] == local[j];
      assert m[|remote| + p] == local[j];
      FindUnique(m, |remote| + p);
    } else {
      IdSetHasId(local, id);
      IdSetHasId(remote, id);
      IdSetHasId(m, id);
    }
  }

  // ---------------------------------------------------------------------------
  // Identity, idempotence and order.

  lemma {:induction false} LocalOnlyOfEmpty(local: seq<Group>)
    ensures LocalOnly(local, []) == local
    decreases |local|
  {
    if |local| > 0 {
      LocalOnlyOfEmpty(local[..|local| - 1]);
      assert local[..|local| - 1] + [local[|local| - 1]] == local;
    }
  }

  lemma {:induction false} LocalOnlyCovered(local: seq<Group>, remote: seq<Group>)
    requires forall i :: 0 <= i < |local| ==> HasId(remote, local[i].id)
    ensures LocalOnly(local, remote) == []
    decreases |local|
  {
    if |local| > 0 {
      LocalOnlyCovered(local[..|local| - 1], remote);
      assert HasId(remote, local[|local| - 1].id);
    }
  }

  /** Merging with an empty remote list returns the local list. */
  lemma MergeEmptyRemote(x: seq<Group>)
    requires UniqueIds(x)
    ensures Merged(x, []) == x
  {
    MergedReference(x, []);
    LocalOnlyOfEmpty(x);
  }

  /** Merging an empty local list returns the remote list. */
  lemma MergeEmptyLocal(x: seq<Group>)
    requires UniqueIds(x)
    ensures Merged([], x) == x
  {
    MergedReference([], x);
    assert ResolveAll(x, []) == x;
  }

  /** Merging a list with itself returns it. */
  lemma MergeIdempotent(x: seq<Group>)
    requires UniqueIds(x)
    ensures Merged(x, x) == x
  {
    MergedReference(x, x);
    forall i | 0 <= i < |x| ensures Resolve(x[i], x) == x[i] {
      FindUnique(x, i);
    }
    assert ResolveAll(x, x) == x;
    LocalOnlyCovered(x, x);
  }

  /**
   * Output order: the records at the remote ids come first, in remote order, then the
   * local-only records in local order.
   */
  lemma MergeOrder(local: seq<Group>, remote: seq<Group>)
    requires UniqueIds(local) && UniqueIds(remote)
    ensures |Merged(local, remote)| >= |remote|
    ensures forall i :: 0 <= i < |remote| ==> Merged(local, remote)[i].id == remote[i].id
    ensures Merged(local, remote)[|remote|..] == LocalOnly(local, remote)
  {
    MergedReference(local, remote);
    var m := Merged(local, remote);
    forall i | 0 <= i < |remote| ensures m[i].id == remote[i].id {
      assert m[i] == Resolve(remote[i], local);
    }
  }

  /** The tie-break: equal timestamps keep the remote record. */
  lemma MergeTieKeepsRemote(mine: Group, theirs: Group)
    requires mine.id == theirs.id && mine.lastModified == theirs.lastModified
    ensures Merged([mine], [theirs]) == [theirs]
  {
    assert [theirs][..0] == [] && [mine][..0] == [];
    assert RemotePass([theirs]) == Put([], theirs) == [theirs];
    assert Find([theirs], mine.id) == Some(0);
    assert LocalPass([theirs], [mine]) == Offer([theirs], mine);
  }
}
