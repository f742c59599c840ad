/** The records kept in sync: saved tabs, tab groups, and the tab codec. */
module Groups {
  import opened Wrappers

  /** A group id: `Date.now().toString()` at creation, opaque afterwards. */
  type Id = string

  /** The value `new Date(s)` gives a timestamp string; only its order matters. */
  type Timestamp = int

  /** One saved browser tab. */
  datatype Tab = Tab(url: string, title: string, timestamp: string)

  /** The `tabs` field of a group: codec output, or the literal `[]` a deletion writes. */
  datatype TabsField = Blob(text: string) | Cleared

  /** A tab group; `deleted` is the tombstone flag (an absent flag reads as false). */
  datatype Group = Group(
    id: Id,
    name: string,
    version: int,
    lastModified: Timestamp,
    tabs: TabsField,
    deleted: bool)

  /**
   * compressData / decompressData. Their code is not part of this model, so they are
   * a parameter: `decompress` answers None where the JavaScript throws.
   */
  datatype TabCodec = TabCodec(
    compress: seq<Tab> -> string,
    decompress: TabsField -> Option<seq<Tab>>)

  /** The codec round-trips every tab list. */
  ghost predicate LawfulCodec(codec: TabCodec) {
    forall tabs :: codec.decompress(Blob(codec.compress(tabs))) == Some(tabs)
  }

  predicate HasId(s: seq<Group>, id: Id) {
    exists i :: 0 <= i < |s| && s[i].id == id
  }

  function IdSet(s: seq<Group>): set<Id> {
    set i | 0 <= i < |s| :: s[i].id
  }

  /** No id occurs twice: the collection invariant of the stored group list. */
  predicate UniqueIds(s: seq<Group>) {
    forall i, j :: 0 <= i < j < |s| ==> s[i].id != s[j].id
  }

  /** Index of the (last) record with the given id, or None when there is none. */
  function Find(s: seq<Group>, id: Id): (r: Option<nat>)
    ensures r.Some? ==> r.value < |s| && s[r.value].id == id
    ensures r.Some? ==> forall j :: r.value < j < |s| ==> s[j].id != id
    ensures r.None? <==> !HasId(s, id)
  {
    if |s| == 0 then None
    else if s[|s| - 1].id == id then Some(|s| - 1)
    else Find(s[..|s| - 1], id)
  }

  /**
   * The record with the given id, as `Map.get` gives it after the records were set in
   * order: the last one wins. It is also what `Array.find` gives when ids are unique.
   */
  function Lookup(s: seq<Group>, id: Id): Option<Group> {
    match Find(s, id)
    case Some(i) => Some(s[i])
    case None => None
  }

  lemma FindUnique(s: seq<Group>, i: nat)
    requires UniqueIds(s) && i < |s|
    ensures Find(s, s[i].id) == Some(i)
  {
  }

  lemma IdSetHasId(s: seq<Group>, id: Id)
    ensures id in IdSet(s) <==> HasId(s, id)
  {
    if HasId(s, id) {
      var i :| 0 <= i < |s| && s[i].id == id;
      assert s[i].id in IdSet(s);
    }
  }
}
