/**
 * The list logic of the group viewer (src/view.js): which groups are shown and in what
 * order, how each group's tabs are rendered, and the four edits, each of which rewrites
 * the stored group list.
 */
module View {
  import opened Wrappers
  import opened Groups
  import opened Merge
  import opened Platform

  // ---------------------------------------------------------------------------
  // loadGroups: filter and order.

  /** `groups.filter(group => !group.deleted)`. */
  function Visible(groups: seq<Group>): (r: seq<Group>)
    ensures |r| <= |groups|
    ensures forall g :: g in r <==> g in groups && !g.deleted
  {
    if |groups| == 0 then []
    else (if groups[0].deleted then [] else [groups[0]]) + Visible(groups[1..])
  }

  /** Every live record is kept as often as it is stored, and no deleted one. */
  lemma {:induction false} VisibleCounts(groups: seq<Group>, g: Group)
    ensures multiset(Visible(groups))[g] == if g.deleted then 0 else multiset(groups)[g]
    decreases |groups|
  {
    if |groups| > 0 {
      var head := if groups[0].deleted then [] else [groups[0]];
      VisibleCounts(groups[1..], g);
      assert multiset(groups) == multiset{groups[0]} + multiset(groups[1..]) by {
        assert groups == [groups[0]] + groups[1..];
      }
      assert multiset(Visible(groups)) == multiset(head) + multiset(Visible(groups[1..]));
    }
  }

  /** The filter works piecewise, so the records it keeps stay in their stored order. */
  lemma {:induction false} VisibleAppend(a: seq<Group>, b: seq<Group>)
    ensures Visible(a + b) == Visible(a) + Visible(b)
    decreases |a|
  {
    if |a| == 0 {
      assert a + b == b;
    } else {
      var head := if a[0].deleted then [] else [a[0]];
      var ab := a + b;
      assert ab[0] == a[0] && ab[1..] == a[1..] + b;
      calc {
        Visible(ab);
        head + Visible(a[1..] + b);
        { VisibleAppend(a[1..], b); }
        head + (Visible(a[1..]) + Visible(b));
        Visible(a) + Visible(b);
      }
    }
  }

  /** Filtering and picking the records of one lastModified commute. */
  lemma {:induction false} VisibleWithTime(groups: seq<Group>, t: Timestamp)
    ensures WithTime(Visible(groups), t) == Visible(WithTime(groups, t))
    decreases |groups|
  {
    if |groups| > 0 {
      VisibleWithTime(groups[1..], t);
      var head := if groups[0].deleted then [] else [groups[0]];
      WithTimeAppend(head, Visible(groups[1..]), t);
      VisibleAppend(if groups[0].lastModified == t then [groups[0]] else [], WithTime(groups[1..], t));
    }
  }

  lemma {:induction false} WithTimeAppend(a: seq<Group>, b: seq<Group>, t: Timestamp)
    ensures WithTime(a + b, t) == WithTime(a, t) + WithTime(b, t)
    decreases |a|
  {
    if |a| > 0 {
      assert (a + b)[1..] == a[1..] + b;
      WithTimeAppend(a[1..], b, t);
    } else {
      assert a + b == b;
    }
  }

  /** Ordered newest first. */
  predicate NewestFirst(s: seq<Group>) {
    forall i, j :: 0 <= i < j < |s| ==> s[i].lastModified >= s[j].lastModified
  }

  /** Places `g` before the first record that is not newer than it. */
  function Insert(g: Group, sorted: seq<Group>): seq<Group> {
    if |sorted| == 0 || g.lastModified >= sorted[0].lastModified then [g] + sorted
    else [sorted[0]] + Insert(g, sorted[1..])
  }

  /** `slice().sort((a, b) => new Date(b.lastModified) - new Date(a.lastModified))`: a stable sort, newest first. */
  function SortByRecency(groups: seq<Group>): seq<Group> {
    if |groups| == 0 then [] else Insert(groups[0], SortByRecency(groups[1..]))
  }

  /** The records with the given lastModified, in order. */
  function WithTime(s: seq<Group>, t: Timestamp): seq<Group> {
    if |s| == 0 then []
    else (if s[0].lastModified == t then [s[0]] else []) + WithTime(s[1..], t)
  }

  lemma {:induction false} InsertMultiset(g: Group, sorted: seq<Group>)
    ensures multiset(Insert(g, sorted)) == multiset(sorted) + multiset{g}
    decreases |sorted|
  {
    if |sorted| > 0 && g.lastModified < sorted[0].lastModified {
      InsertMultiset(g, sorted[1..]);
      assert sorted == [sorted[0]] + sorted[1..];
    }
  }

  /** A record no older than every element of a newest-first list can head it. */
  lemma ConsNewestFirst(h: Group, t: seq<Group>)
    requires NewestFirst(t)
    requires forall x :: x in t ==> h.lastModified >= x.lastModified
    ensures NewestFirst([h] + t)
  {
    var s := [h] + t;
    forall i, j | 0 <= i < j < |s| ensures s[i].lastModified >= s[j].lastModified {
      if i > 0 {
        assert s[i] == t[i - 1] && s[j] == t[j - 1];
      } else {
        assert s[j] == t[j - 1] && s[j] in t;
      }
    }
  }

  lemma {:induction false} InsertSorted(g: Group, sorted: seq<Group>)
    requires NewestFirst(sorted)
    ensures NewestFirst(Insert(g, sorted))
    decreases |sorted|
  {
    if |sorted| > 0 && g.lastModified < sorted[0].lastModified {
      var rest := sorted[1..];
      assert NewestFirst(rest);
      InsertSorted(g, rest);
      InsertMultiset(g, rest);
      forall x | x in Insert(g, rest) ensures sorted[0].lastModified >= x.lastModified {
        assert x in multiset(Insert(g, rest));
        if x != g {
          assert x in rest;
          var k :| 0 <= k < |rest| && rest[k] == x;
          assert sorted[k + 1] == x;
        }
      }
      ConsNewestFirst(sorted[0], Insert(g, rest));
    } else {
      forall x | x in sorted ensures g.lastModified >= x.lastModified {
        var k :| 0 <= k < |sorted| && sorted[k] == x;
        assert sorted[0].lastModified >= sorted[k].lastModified;
      }
      ConsNewestFirst(g, sorted);
    }
  }

  /** The order is newest first, and the records are those of the input. */
  lemma {:induction false} SortByRecencySorted(groups: seq<Group>)
    ensures NewestFirst(SortByRecency(groups))
    ensures multiset(SortByRecency(groups)) == multiset(groups)
    decreases |groups|
  {
    if |groups| > 0 {
      var rest := SortByRecency(groups[1..]);
      SortByRecencySorted(groups[1..]);
      InsertSorted(groups[0], rest);
      InsertMultiset(groups[0], rest);
      assert multiset(groups) == multiset(groups[1..]) + multiset{groups[0]} by {
        assert groups == [groups[0]] + groups[1..];
      }
    }
  }

  lemma {:induction false} InsertWithTime(g: Group, sorted: seq<Group>, t: Timestamp)
    requires NewestFirst(sorted)
    ensures WithTime(Insert(g, sorted), t) == (if g.lastModified == t then [g] else []) + WithTime(sorted, t)
    decreases |sorted|
  {
    if |sorted| > 0 && g.lastModified < sorted[0].lastModified {
      var rest := sorted[1..];
      assert NewestFirst(rest);
      InsertWithTime(g, rest, t);
      var ins := Insert(g, sorted);
      assert ins[1..] == Insert(g, rest);
      if g.lastModified == t {
        // every record ahead of the insertion point is strictly newer than t
        WithTimeNewer(sorted, t);
      }
    } else if |sorted| > 0 {
      assert Insert(g, sorted)[1..] == sorted;
    }
  }

  /** A newest-first list whose head is newer than t keeps its t-records after the head. */
  lemma WithTimeNewer(sorted: seq<Group>, t: Timestamp)
    requires |sorted| > 0 && sorted[0].lastModified > t
    ensures WithTime(sorted, t) == WithTime(sorted[1..], t)
  {
  }

  /** Stability: records with equal lastModified keep their relative order. */
  lemma {:induction false} SortByRecencyStable(groups: seq<Group>, t: Timestamp)
    ensures WithTime(SortByRecency(groups), t) == WithTime(groups, t)
    decreases |groups|
  {
    if |groups| > 0 {
      SortByRecencyStable(groups[1..], t);
      SortByRecencySorted(groups[1..]);
      InsertWithTime(groups[0], SortByRecency(groups[1..]), t);
    }
  }

  /** The list loadGroups shows. */
  function Displayed(groups: seq<Group>): seq<Group> {
    SortByRecency(Visible(groups))
  }

  /** Groups with the same lastModified are shown in their stored order. */
  lemma DisplayedTies(groups: seq<Group>, t: Timestamp)
    ensures WithTime(Displayed(groups), t) == Visible(WithTime(groups, t))
  {
    SortByRecencyStable(Visible(groups), t);
    VisibleWithTime(groups, t);
  }

  /** Exactly the non-deleted groups, newest first. */
  lemma DisplayedGroups(groups: seq<Group>)
    ensures NewestFirst(Displayed(groups))
    ensures multiset(Displayed(groups)) == multiset(Visible(groups))
    ensures forall g :: g in Displayed(groups) <==> g in groups && !g.deleted
  {
    SortByRecencySorted(Visible(groups));
    forall g ensures g in Displayed(groups) <==> g in Visible(groups) {
      assert g in Displayed(groups) <==> g in multiset(Displayed(groups));
    }
  }

  // ---------------------------------------------------------------------------
  // Rendering.

  /** The tabs listed under a group: its decoded tabs, or none when decoding fails. */
  function ShownTabs(codec: TabCodec, g: Group): seq<Tab> {
    match codec.decompress(g.tabs)
    case Some(tabs) => tabs
    case None => []
  }

  /** One rendered group: the group, its tab rows, and whether the decode-failure line shows. */
  datatype Panel = Panel(group: Group, tabs: seq<Tab>, failed: bool)

  function RenderPanel(codec: TabCodec, g: Group): Panel {
    Panel(g, ShownTabs(codec, g), codec.decompress(g.tabs).None?)
  }

  /** The panels loadGroups builds, one per displayed group. */
  function Render(codec: TabCodec, groups: seq<Group>): (r: seq<Panel>)
    ensures |r| == |Displayed(groups)|
  {
    var shown := Displayed(groups);
    seq(|shown|, i requires 0 <= i < |shown| => RenderPanel(codec, shown[i]))
  }

  /**
   * A failed decode affects only its own panel: it shows the failure line and no tabs,
   * every group still gets its panel, and a panel depends on its own group alone.
   * These facts unfold `Render` and `RenderPanel`; the lemma spells them out per panel.
   */
  lemma RenderIsolatesFailure(codec: TabCodec, other: TabCodec, groups: seq<Group>, i: nat)
    requires i < |Displayed(groups)|
    ensures |Render(other, groups)| == |Render(codec, groups)|
    ensures Render(codec, groups)[i].group == Displayed(groups)[i]
    ensures Render(codec, groups)[i].failed <==> codec.decompress(Displayed(groups)[i].tabs).None?
    ensures Render(codec, groups)[i].failed ==> Render(codec, groups)[i].tabs == []
    ensures codec.decompress(Displayed(groups)[i].tabs) == other.decompress(Displayed(groups)[i].tabs) ==>
              Render(codec, groups)[i] == Render(other, groups)[i]
  {
  }

  // ---------------------------------------------------------------------------
  // deleteGroup.

  /** The tombstone a deletion leaves: deleted, tabs cleared, stamped now. */
  function Tombstone(g: Group, now: Timestamp): Group {
    g.(deleted := true, tabs := Cleared, lastModified := now)
  }

  /** deleteGroup after confirmation: every record with the id becomes a tombstone. */
  function DeleteGroup(groups: seq<Group>, id: Id, now: Timestamp): (r: seq<Group>)
    ensures |r| == |groups|
  {
    seq(|groups|, i requires 0 <= i < |groups| => if groups[i].id == id then Tombstone(groups[i], now) else groups[i])
  }

  /**
   * Only records with the id change, and each keeps its id and name; the deleted group
   * disappears from the view and nothing else does.
   */
  lemma DeleteGroupEffect(groups: seq<Group>, id: Id, now: Timestamp)
    ensures forall i :: 0 <= i < |groups| && groups[i].id != id ==> DeleteGroup(groups, id, now)[i] == groups[i]
    ensures forall i :: 0 <= i < |groups| ==>
              DeleteGroup(groups, id, now)[i].id == groups[i].id && DeleteGroup(groups, id, now)[i].name == groups[i].name
    ensures forall g :: g in Displayed(DeleteGroup(groups, id, now)) <==> g in Displayed(groups) && g.id != id
  {
    var r := DeleteGroup(groups, id, now);
    DisplayedGroups(groups);
    DisplayedGroups(r);
    DeleteGroupLive(groups, id, now);
  }

  /** The live records after a deletion are the live records with another id. */
  lemma DeleteGroupLive(groups: seq<Group>, id: Id, now: Timestamp)
    ensures forall g :: g in DeleteGroup(groups, id, now) && !g.deleted <==> g in groups && !g.deleted && g.id != id
  {
    var r := DeleteGroup(groups, id, now);
    forall g ensures g in r && !g.deleted <==> g in groups && !g.deleted && g.id != id {
      if g in r && !g.deleted {
        var i :| 0 <= i < |r| && r[i] == g;
      }
      if g in groups && !g.deleted && g.id != id {
        var i :| 0 <= i < |groups| && groups[i] == g;
        assert r[i] == g;
      }
    }
  }

  /**
   * A deletion propagates through the next merge when it is later than the remote copy;
   * when the remote copy is as late or later, the remote copy comes back.
   */
  lemma DeleteThenMerge(local: seq<Group>, remote: seq<Group>, id: Id, now: Timestamp)
    requires UniqueIds(local) && UniqueIds(remote) && HasId(local, id)
    ensures var tomb := Tombstone(Lookup(local, id).value, now);
            && Lookup(DeleteGroup(local, id, now), id) == Some(tomb)
            && (Lookup(remote, id).None? || Lookup(remote, id).value.lastModified < now ==>
                  Lookup(Merged(DeleteGroup(local, id, now), remote), id) == Some(tomb))
            && (Lookup(remote, id).Some? && Lookup(remote, id).value.lastModified >= now ==>
                  Lookup(Merged(DeleteGroup(local, id, now), remote), id) == Lookup(remote, id))
  {
    var r := DeleteGroup(local, id, now);
    var i := Find(local, id).value;
    FindUnique(local, i);
    assert forall j :: 0 <= j < |r| ==> r[j].id == local[j].id;
    assert UniqueIds(r);
    FindUnique(r, i);
    MergeLastWriteWins(r, remote, id);
  }

  // ---------------------------------------------------------------------------
  // editGroupName.

  /** Whether a prompt answer is an edit: neither cancelled nor empty nor the current text. */
  predicate IsEdit(answer: Option<string>, current: string) {
    answer.Some? && answer.value != "" && answer.value != current
  }

  function Renamed(g: Group, id: Id, name: string, now: Timestamp): Group {
    if g.id == id then g.(name := name, lastModified := now) else g
  }

  /** editGroupName: the records with the shown group's id get the new name and a fresh stamp. */
  function EditGroupName(groups: seq<Group>, shown: Group, newName: Option<string>, now: Timestamp): (r: seq<Group>)
    ensures |r| == |groups|
  {
    if !IsEdit(newName, shown.name) then groups
    else seq(|groups|, i requires 0 <= i < |groups| => Renamed(groups[i], shown.id, newName.value, now))
  }

  /**
   * No edit, no change. An edit changes only the matching records, and in them only the
   * name and the stamp; ids and deletion flags, and so the set of shown groups' ids, stay.
   */
  lemma EditGroupNameEffect(groups: seq<Group>, shown: Group, newName: Option<string>, now: Timestamp)
    ensures !IsEdit(newName, shown.name) ==> EditGroupName(groups, shown, newName, now) == groups
    ensures forall i :: 0 <= i < |groups| && groups[i].id != shown.id ==>
              EditGroupName(groups, shown, newName, now)[i] == groups[i]
    ensures IsEdit(newName, shown.name) ==> forall i :: 0 <= i < |groups| && groups[i].id == shown.id ==>
              EditGroupName(groups, shown, newName, now)[i]
                == groups[i].(name := newName.value, lastModified := now)
    ensures forall i :: 0 <= i < |groups| ==>
              && EditGroupName(groups, shown, newName, now)[i].id == groups[i].id
              && EditGroupName(groups, shown, newName, now)[i].deleted == groups[i].deleted
              && EditGroupName(groups, shown, newName, now)[i].tabs == groups[i].tabs
  {
  }

  // ---------------------------------------------------------------------------
  // editTabTitle.

  /** One group with tab `k` retitled; unchanged when its tabs do not decode or k is past the end. */
  function RetitleTab(codec: TabCodec, g: Group, k: nat, title: string, now: Timestamp): Group {
    match codec.decompress(g.tabs)
    case None => g
    case Some(tabs) =>
      if k < |tabs| then
        g.(tabs := Blob(codec.compress(tabs[k := tabs[k].(title := title)])), lastModified := now)
      else g
  }

  function RetitleIn(codec: TabCodec, g: Group, id: Id, k: nat, title: string, now: Timestamp): Group {
    if g.id == id then RetitleTab(codec, g, k, title, now) else g
  }

  /** editTabTitle: retitles tab `tabIndex` in the records with the shown group's id. */
  function EditTabTitle(codec: TabCodec, groups: seq<Group>, shown: Group, shownTab: Tab, tabIndex: nat,
                        newTitle: Option<string>, now: Timestamp): (r: seq<Group>)
    ensures |r| == |groups|
  {
    if !IsEdit(newTitle, shownTab.title) then groups
    else seq(|groups|, i requires 0 <= i < |groups| => RetitleIn(codec, groups[i], shown.id, tabIndex, newTitle.value, now))
  }

  /**
   * With a lawful codec, the edited record's tabs decode to the old tabs with only tab
   * `tabIndex` retitled, its url and timestamp kept; a record that fails to decode is
   * kept as it was; other records are untouched.
   */
  lemma EditTabTitleEffect(codec: TabCodec, groups: seq<Group>, shown: Group, shownTab: Tab, tabIndex: nat,
                           newTitle: Option<string>, now: Timestamp, i: nat)
    requires LawfulCodec(codec) && i < |groups|
    ensures var r := EditTabTitle(codec, groups, shown, shownTab, tabIndex, newTitle, now);
            && r[i].id == groups[i].id && r[i].name == groups[i].name && r[i].deleted == groups[i].deleted
            // `{...g, tabs, lastModified}`: only the tabs and the stamp can change, and the stamp only to now
            && r[i] == groups[i].(tabs := r[i].tabs, lastModified := r[i].lastModified)
            && (r[i].lastModified == groups[i].lastModified || r[i].lastModified == now)
            && (groups[i].id != shown.id || !IsEdit(newTitle, shownTab.title) ==> r[i] == groups[i])
            && (codec.decompress(groups[i].tabs).None? ==> r[i] == groups[i])
            && (groups[i].id == shown.id && IsEdit(newTitle, shownTab.title)
                && codec.decompress(groups[i].tabs).Some? && tabIndex < |codec.decompress(groups[i].tabs).value| ==>
                  var old_ := codec.decompress(groups[i].tabs).value;
                  var new_ := codec.decompress(r[i].tabs).value;
                  && codec.decompress(r[i].tabs).Some?
                  && |new_| == |old_|
                  && new_[tabIndex] == Tab(old_[tabIndex].url, newTitle.value, old_[tabIndex].timestamp)
                  && (forall k :: 0 <= k < |old_| && k != tabIndex ==> new_[k] == old_[k])
                  && r[i].lastModified == now)
  {
    var tabs := codec.decompress(groups[i].tabs);
    if tabs.Some? && IsEdit(newTitle, shownTab.title) && tabIndex < |tabs.value| {
      var t := tabs.value;
      assert codec.decompress(Blob(codec.compress(t[tabIndex := t[tabIndex].(title := newTitle.value)])))
             == Some(t[tabIndex := t[tabIndex].(title := newTitle.value)]);
    }
  }

  // ---------------------------------------------------------------------------
  // moveTabToGroup.

  /** `groups.filter(g => g.id !== sourceId && !g.deleted)`: the groups offered as targets. */
  function MoveTargets(groups: seq<Group>, sourceId: Id): (r: seq<Group>)
    ensures forall g :: g in r <==> g in groups && g.id != sourceId && !g.deleted
  {
    if |groups| == 0 then []
    else (if groups[0].id != sourceId && !groups[0].deleted then [groups[0]] else [])
         + MoveTargets(groups[1..], sourceId)
  }

  /** `targetGroups.find(g => g.id === id)`. */
  function FindTarget(targets: seq<Group>, id: Id): (r: Option<Group>)
    ensures r.Some? ==> r.value in targets && r.value.id == id
    ensures r.None? ==> forall g :: g in targets ==> g.id != id
    // the first target with that id
    ensures r.Some? ==> exists i :: 0 <= i < |targets| && targets[i] == r.value
                                    && forall j :: 0 <= j < i ==> targets[j].id != id
  {
    if |targets| == 0 then None
    else if targets[0].id == id then Some(targets[0])
    else
      var r := FindTarget(targets[1..], id);
      if r.Some? then
        var i :| 0 <= i < |targets[1..]| && targets[1..][i] == r.value
                 && forall j :: 0 <= j < i ==> targets[1..][j].id != id;
        assert targets[i + 1] == r.value;
        r
      else r
  }

  /** How a move ends. */
  datatype MoveOutcome =
    | NoTargets                       // no other live group: aborted before the dialog
    | Cancelled                       // the dialog was dismissed
    | TargetMissing                   // the chosen id is not among the targets
    | Failed                          // a decode failed: nothing is written
    | Moved(groups: seq<Group>)       // the list written back

  /** The tab was displayed: the rendered source group decodes and has a tab at that index. */
  predicate TabShown(codec: TabCodec, source: Group, tabIndex: nat) {
    tabIndex < |ShownTabs(codec, source)|
  }

  /** `splice(k, 1)`: the sequence without its element at k. */
  function RemoveAt(s: seq<Tab>, k: nat): (r: seq<Tab>)
    requires k < |s|
    ensures |r| == |s| - 1
    ensures multiset(r) + multiset{s[k]} == multiset(s)
    // the tabs before k stay where they are, the ones after it move up by one
    ensures forall i :: 0 <= i < k ==> r[i] == s[i]
    ensures forall i :: k <= i < |r| ==> r[i] == s[i + 1]
  {
    assert s == s[..k] + [s[k]] + s[k + 1..];
    s[..k] + s[k + 1..]
  }

  /** The list written back after a move: the source's and the target's records re-encoded and stamped. */
  function MovedGroups(codec: TabCodec, groups: seq<Group>, sourceId: Id, sourceTabs: seq<Tab>,
                       targetId: Id, targetTabs: seq<Tab>, now: Timestamp): (r: seq<Group>)
    ensures |r| == |groups|
  {
    seq(|groups|, i requires 0 <= i < |groups| =>
      if groups[i].id == sourceId then groups[i].(tabs := Blob(codec.compress(sourceTabs)), lastModified := now)
      else if groups[i].id == targetId then groups[i].(tabs := Blob(codec.compress(targetTabs)), lastModified := now)
      else groups[i])
  }

  /**
   * moveTabToGroup on the stored list `groups`, for the rendered group `source`, its tab
   * at `tabIndex`, and the dialog's answer `choice` (None when cancelled).
   */
  function MoveTab(codec: TabCodec, groups: seq<Group>, source: Group, tabIndex: nat, choice: Option<Id>,
                   now: Timestamp): MoveOutcome
    requires TabShown(codec, source, tabIndex)
  {
    var targets := MoveTargets(groups, source.id);
    if |targets| == 0 then NoTargets
    else if choice.None? then Cancelled
    else match FindTarget(targets, choice.value)
      case None => TargetMissing
      case Some(target) =>
        var sourceTabs := ShownTabs(codec, source);
        match codec.decompress(target.tabs)
        case None => Failed
        case Some(targetTabs) =>
          Moved(MovedGroups(codec, groups, source.id, RemoveAt(sourceTabs, tabIndex),
                            target.id, targetTabs + [sourceTabs[tabIndex]], now))
  }

  /** A move is offered only when some other live group exists, and a cancelled dialog moves nothing. */
  lemma MoveTabOffered(codec: TabCodec, groups: seq<Group>, source: Group, tabIndex: nat, choice: Option<Id>,
                       now: Timestamp)
    requires TabShown(codec, source, tabIndex)
    ensures MoveTab(codec, groups, source, tabIndex, choice, now) == NoTargets <==>
              forall g :: g in groups ==> g.id == source.id || g.deleted
    ensures choice.None? ==> !MoveTab(codec, groups, source, tabIndex, choice, now).Moved?
  {
    var targets := MoveTargets(groups, source.id);
    if |targets| == 0 {
      forall g | g in groups ensures g.id == source.id || g.deleted {
        assert g !in targets;
      }
    } else {
      var g0 := targets[0];
      assert g0 in groups && g0.id != source.id && !g0.deleted;
    }
  }

  /**
   * When a move happens, the chosen target is another live group; records of other
   * groups are untouched, and the two groups' records keep every field but their tabs
   * and are stamped now.
   */
  lemma MoveTabEffect(codec: TabCodec, groups: seq<Group>, source: Group, tabIndex: nat, choice: Option<Id>,
                      now: Timestamp)
    requires TabShown(codec, source, tabIndex)
    ensures MoveTab(codec, groups, source, tabIndex, choice, now).Moved? ==>
              var r := MoveTab(codec, groups, source, tabIndex, choice, now).groups;
              var target := FindTarget(MoveTargets(groups, source.id), choice.value).value;
              && target in groups && target.id == choice.value && target.id != source.id && !target.deleted
              && |r| == |groups|
              && (forall i :: 0 <= i < |groups| && groups[i].id != source.id && groups[i].id != target.id ==>
                    r[i] == groups[i])
              && (forall i :: 0 <= i < |groups| && (groups[i].id == source.id || groups[i].id == target.id) ==>
                    r[i].lastModified == now && r[i].name == groups[i].name && r[i].deleted == groups[i].deleted)
              // the two groups' records are rewritten as `{...g, tabs, lastModified}`: every other field is kept
              && (forall i :: 0 <= i < |groups| && (groups[i].id == source.id || groups[i].id == target.id) ==>
                    r[i] == groups[i].(tabs := r[i].tabs, lastModified := now))
  {
  }

  /**
   * With a lawful codec, a move takes exactly the tab at tabIndex out of the source and
   * appends it to the target, so the two groups hold the same tabs between them as before.
   */
  lemma MoveTabConserves(codec: TabCodec, groups: seq<Group>, source: Group, tabIndex: nat, choice: Option<Id>,
                         now: Timestamp)
    requires TabShown(codec, source, tabIndex) && LawfulCodec(codec)
    ensures MoveTab(codec, groups, source, tabIndex, choice, now).Moved? ==>
              var r := MoveTab(codec, groups, source, tabIndex, choice, now).groups;
              var sourceTabs := ShownTabs(codec, source);
              var target := FindTarget(MoveTargets(groups, source.id), choice.value).value;
              var targetTabs := codec.decompress(target.tabs).value;
              && (forall i :: 0 <= i < |groups| && groups[i].id == source.id ==>
                    codec.decompress(r[i].tabs) == Some(RemoveAt(sourceTabs, tabIndex)))
              && (forall i :: 0 <= i < |groups| && groups[i].id == target.id ==>
                    codec.decompress(r[i].tabs) == Some(targetTabs + [sourceTabs[tabIndex]]))
              && multiset(RemoveAt(sourceTabs, tabIndex)) + multiset(targetTabs + [sourceTabs[tabIndex]])
                 == multiset(sourceTabs) + multiset(targetTabs)
  {
    if MoveTab(codec, groups, source, tabIndex, choice, now).Moved? {
      var sourceTabs := ShownTabs(codec, source);
      var target := FindTarget(MoveTargets(groups, source.id), choice.value).value;
      var targetTabs := codec.decompress(target.tabs).value;
      var kept, grown := RemoveAt(sourceTabs, tabIndex), targetTabs + [sourceTabs[tabIndex]];
      assert codec.decompress(Blob(codec.compress(kept))) == Some(kept);
      assert codec.decompress(Blob(codec.compress(grown))) == Some(grown);
    }
  }

  // ---------------------------------------------------------------------------
  // The edits as they run: read the stored list, rewrite it, write it back.

  /** deleteGroup: when confirmed, the stored list gets the tombstone; nothing else is written. */
  method DeleteGroupIn(store: LocalStore, id: Id, confirmed: bool, now: Timestamp)
    modifies store
    ensures store.pat == old(store.pat) && store.gistId == old(store.gistId) && store.lastSync == old(store.lastSync)
    ensures store.groups == if confirmed then DeleteGroup(old(store.groups), id, now) else old(store.groups)
  {
    if !confirmed {
      return;
    }
    store.groups := DeleteGroup(store.groups, id, now);
  }

  /** editGroupName: writes only for a real edit. */
  method EditGroupNameIn(store: LocalStore, shown: Group, newName: Option<string>, now: Timestamp)
    modifies store
    ensures !IsEdit(newName, shown.name) ==> unchanged(store)
    ensures store.pat == old(store.pat) && store.gistId == old(store.gistId) && store.lastSync == old(store.lastSync)
    ensures store.groups == EditGroupName(old(store.groups), shown, newName, now)
  {
    if !IsEdit(newName, shown.name) {
      return;
    }
    store.groups := EditGroupName(store.groups, shown, newName, now);
  }

  /** editTabTitle: writes only for a real edit. */
  method EditTabTitleIn(store: LocalStore, codec: TabCodec, shown: Group, shownTab: Tab, tabIndex: nat,
                        newTitle: Option<string>, now: Timestamp)
    modifies store
    ensures !IsEdit(newTitle, shownTab.title) ==> unchanged(store)
    ensures store.pat == old(store.pat) && store.gistId == old(store.gistId) && store.lastSync == old(store.lastSync)
    ensures store.groups == EditTabTitle(codec, old(store.groups), shown, shownTab, tabIndex, newTitle, now)
  {
    if !IsEdit(newTitle, shownTab.title) {
      return;
    }
    store.groups := EditTabTitle(codec, store.groups, shown, shownTab, tabIndex, newTitle, now);
  }

  /**
   * moveTabToGroup: the source's tabs lose the moved one (`splice`), the target's gain
   * it (`push`), and the rewritten list is stored; any other outcome writes nothing.
   */
  method MoveTabToGroup(store: LocalStore, codec: TabCodec, source: Group, tabIndex: nat, choice: Option<Id>,
                        now: Timestamp) returns (outcome: MoveOutcome)
    requires TabShown(codec, source, tabIndex)
    modifies store
    ensures outcome == MoveTab(codec, old(store.groups), source, tabIndex, choice, now)
    ensures outcome.Moved? ==> store.groups == outcome.groups
    ensures !outcome.Moved? ==> unchanged(store)
    ensures store.pat == old(store.pat) && store.gistId == old(store.gistId) && store.lastSync == old(store.lastSync)
  {
    var groups := store.groups;
    var targets := MoveTargets(groups, source.id);
    if |targets| == 0 {
      return NoTargets;
    }
    if choice.None? {
      return Cancelled;
    }
    var target := FindTarget(targets, choice.value);
    if target.None? {
      return TargetMissing;
    }
    var sourceTabs := ShownTabs(codec, source);
    var moved := sourceTabs[tabIndex];
    sourceTabs := RemoveAt(sourceTabs, tabIndex);
    var targetTabs := codec.decompress(target.value.tabs);
    if targetTabs.None? {
      return Failed;
    }
    var grown := targetTabs.value + [moved];
    outcome := Moved(MovedGroups(codec, groups, source.id, sourceTabs, target.value.id, grown, now));
    store.groups := outcome.groups;
  }
}
