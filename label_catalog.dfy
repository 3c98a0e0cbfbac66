/**
 * The static label catalog of the board component, the lookups that
 * resolve a card's label ids against it, and the toggle that adds or
 * removes one label id from a card's label array.
 */
module LabelCatalog {
  import opened Kanban

  datatype Label = Label(id: string, name: string, color: string)

  /** The five labels a card can carry, in the order the forms offer them. */
  const Catalog: seq<Label> := [
    Label("design", "Design", "#8b5cf6"),
    Label("development", "Development", "#3b82f6"),
    Label("research", "Research", "#10b981"),
    Label("planning", "Planning", "#f97316"),
    Label("bug", "Bug", "#ef4444")
  ]

  predicate InCatalog(labelId: string) {
    exists l :: l in Catalog && l.id == labelId
  }

  /** `labels.find(l => l.id === labelId)`: the first label carrying the id. */
  function FindIn(labels: seq<Label>, labelId: string): (r: Option<Label>)
    ensures r.Some? ==> r.value in labels && r.value.id == labelId
    ensures r.None? <==> forall l :: l in labels ==> l.id != labelId
    ensures r.Some? ==> exists k :: 0 <= k < |labels| && labels[k] == r.value &&
                          forall j :: 0 <= j < k ==> labels[j].id != labelId
  {
    if labels == [] then None
    else if labels[0].id == labelId then Some(labels[0])
    else
      var r := FindIn(labels[1..], labelId);
      assert forall l :: l in labels[1..] ==> l in labels;
      assert forall l :: l in labels && l != labels[0] ==> l in labels[1..];
      if r.Some? then
        ghost var k :| 0 <= k < |labels[1..]| && labels[1..][k] == r.value &&
                       forall j :: 0 <= j < k ==> labels[1..][j].id != labelId;
        assert labels[k + 1] == r.value && forall j :: 0 <= j < k + 1 ==> labels[j].id != labelId;
        r
      else r
  }

  /** The catalog entry for a label id, if there is one. */
  function FindLabel(labelId: string): (r: Option<Label>)
    ensures r.Some? ==> r.value in Catalog && r.value.id == labelId
    ensures r.None? <==> !InCatalog(labelId)
  {
    FindIn(Catalog, labelId)
  }

  /** No two catalog entries share an id, so a lookup has one answer. */
  lemma CatalogIdsDistinct()
    ensures forall i, j :: 0 <= i < j < |Catalog| ==> Catalog[i].id != Catalog[j].id
  {
  }

  /**
   * The colour of a card's left border: "transparent" when it has no first
   * label id (no labels, or an empty-string id, which is falsy), otherwise the
   * colour of that label's catalog entry, and undefined (None) when the
   * catalog has none.
   */
  function BorderColor(labels: seq<string>): (r: Option<string>)
    ensures |labels| == 0 || labels[0] == "" ==> r == Some("transparent")
    ensures |labels| > 0 && labels[0] != "" ==>
              (r.Some? <==> InCatalog(labels[0])) &&
              (r.Some? ==> exists l :: l in Catalog && l.id == labels[0] && l.color == r.value)
  {
    if |labels| == 0 || labels[0] == "" then Some("transparent")
    else
      match FindLabel(labels[0])
      case Some(l) => Some(l.color)
      case None => None
  }

  /**
   * `labelIds.map(id => labels.find(l => l.id === id))` with the misses
   * dropped: the ids resolved in order against `labels`.
   */
  function ResolveIn(labels: seq<Label>, labelIds: seq<string>): (r: seq<Label>)
    ensures |r| <= |labelIds|
    ensures forall l :: l in r ==> l in labels && l.id in labelIds
    ensures forall x :: x in labelIds && FindIn(labels, x).Some? ==> FindIn(labels, x).value in r
  {
    if labelIds == [] then []
    else
      var rest := ResolveIn(labels, labelIds[1..]);
      assert forall x :: x in labelIds[1..] ==> x in labelIds;
      assert forall x :: x in labelIds && x != labelIds[0] ==> x in labelIds[1..];
      match FindIn(labels, labelIds[0])
      case Some(l) => [l] + rest
      case None => rest
  }

  /** A single id resolves to its label, or to nothing when no label carries it. */
  lemma ResolveInSingle(labels: seq<Label>, labelId: string)
    ensures ResolveIn(labels, [labelId]) ==
            if FindIn(labels, labelId).Some? then [FindIn(labels, labelId).value] else []
  {
    assert [labelId][1..] == [];
  }

  /**
   * Resolution works id by id: the labels of `a + b` are those of `a`
   * followed by those of `b`. With `ResolveInSingle` this fixes the order
   * and the multiplicity of the result, dropped ids included.
   */
  lemma {:induction false} ResolveInAppend(labels: seq<Label>, a: seq<string>, b: seq<string>)
    ensures ResolveIn(labels, a + b) == ResolveIn(labels, a) + ResolveIn(labels, b)
  {
    if a == [] {
      assert a + b == b;
    } else {
      var x, a' := a[0], a[1..];
      var h := if FindIn(labels, x).Some? then [FindIn(labels, x).value] else [];
      calc {
        ResolveIn(labels, a + b);
        { assert a + b == [x] + (a' + b); ResolveInCons(labels, x, a' + b); }
        h + ResolveIn(labels, a' + b);
        { ResolveInAppend(labels, a', b); }
        h + (ResolveIn(labels, a') + ResolveIn(labels, b));
        (h + ResolveIn(labels, a')) + ResolveIn(labels, b);
        { assert a == [x] + a'; ResolveInCons(labels, x, a'); }
        ResolveIn(labels, a) + ResolveIn(labels, b);
      }
    }
  }

  /** Resolving a leading id contributes its label, if any, before the rest. */
  lemma ResolveInCons(labels: seq<Label>, labelId: string, rest: seq<string>)
    ensures ResolveIn(labels, [labelId] + rest) ==
            (if FindIn(labels, labelId).Some? then [FindIn(labels, labelId).value] else []) +
            ResolveIn(labels, rest)
  {
    var ids := [labelId] + rest;
    assert ids[0] == labelId && ids[1..] == rest;
  }

  /** When every id is known, resolution keeps one label per id, in order. */
  lemma {:induction false} ResolveInAllKnown(labels: seq<Label>, labelIds: seq<string>)
    requires forall x :: x in labelIds ==> FindIn(labels, x).Some?
    ensures var r := ResolveIn(labels, labelIds);
            |r| == |labelIds| && forall i :: 0 <= i < |r| ==> r[i].id == labelIds[i]
  {
    if labelIds != [] {
      assert labelIds[0] in labelIds;
      assert forall x :: x in labelIds[1..] ==> x in labelIds;
      ResolveInAllKnown(labels, labelIds[1..]);
    }
  }

  /**
   * The labels a card displays: its label ids resolved against the catalog
   * in order, ids the catalog does not know silently dropped.
   */
  function ResolvedLabels(labelIds: seq<string>): (r: seq<Label>)
    ensures |r| <= |labelIds|
    ensures forall l :: l in r ==> l in Catalog && l.id in labelIds
    ensures forall x :: x in labelIds && InCatalog(x) ==> FindLabel(x).value in r
    ensures (forall x :: x in labelIds ==> InCatalog(x)) ==>
              |r| == |labelIds| && forall i :: 0 <= i < |r| ==> r[i].id == labelIds[i]
  {
    if forall x :: x in labelIds ==> InCatalog(x) then
      ResolveInAllKnown(Catalog, labelIds);
      ResolveIn(Catalog, labelIds)
    else
      ResolveIn(Catalog, labelIds)
  }

  /** `labels.filter(id => id !== labelId)`. */
  function Remove(labels: seq<string>, labelId: string): (r: seq<string>)
    ensures forall x :: x in r <==> x in labels && x != labelId
    ensures |r| <= |labels|
    ensures labelId !in labels ==> r == labels
  {
    if labels == [] then []
    else if labels[0] == labelId then Remove(labels[1..], labelId)
    else [labels[0]] + Remove(labels[1..], labelId)
  }

  /**
   * Toggling a label: remove every occurrence of an id the array holds,
   * keeping the other ids in order, or append an id it does not at the
   * end. Membership of that id flips; no other id's membership changes.
   */
  function Toggle(labels: seq<string>, labelId: string): (r: seq<string>)
    ensures labelId in r <==> labelId !in labels
    ensures forall x :: x != labelId ==> (x in r <==> x in labels)
    ensures labelId !in labels ==> r == labels + [labelId]
    ensures labelId in labels ==> r == Remove(labels, labelId)
  {
    if labelId in labels then Remove(labels, labelId) else labels + [labelId]
  }

  predicate NoDuplicates(labels: seq<string>) {
    forall i, j :: 0 <= i < j < |labels| ==> labels[i] != labels[j]
  }

  /** Toggling a label twice gives every id back its original membership. */
  lemma ToggleTwiceMembership(labels: seq<string>, labelId: string)
    ensures forall x :: x in Toggle(Toggle(labels, labelId), labelId) <==> x in labels
  {
  }

  /** Removing an id that was just appended to an array without it gives back the array. */
  lemma {:induction false} RemoveAppended(labels: seq<string>, labelId: string)
    requires labelId !in labels
    ensures Remove(labels + [labelId], labelId) == labels
  {
    if labels == [] {
      assert [] + [labelId] == [labelId];
    } else {
      assert (labels + [labelId])[0] == labels[0];
      assert (labels + [labelId])[1..] == labels[1..] + [labelId];
      RemoveAppended(labels[1..], labelId);
    }
  }

  /** Filtering distributes over concatenation, so the kept ids stay in their order. */
  lemma {:induction false} RemoveAppend(a: seq<string>, b: seq<string>, labelId: string)
    ensures Remove(a + b, labelId) == Remove(a, labelId) + Remove(b, labelId)
  {
    if a == [] {
      assert a + b == b;
    } else {
      assert (a + b)[0] == a[0] && (a + b)[1..] == a[1..] + b;
      RemoveAppend(a[1..], b, labelId);
    }
  }

  /** Toggling an absent label on and off again restores the array exactly. */
  lemma ToggleOnOff(labels: seq<string>, labelId: string)
    requires labelId !in labels
    ensures Toggle(Toggle(labels, labelId), labelId) == labels
  {
    RemoveAppended(labels, labelId);
  }

  /** Removing an id keeps an array free of duplicates. */
  lemma {:induction false} RemoveKeepsNoDuplicates(labels: seq<string>, labelId: string)
    requires NoDuplicates(labels)
    ensures NoDuplicates(Remove(labels, labelId))
  {
    if labels != [] {
      RemoveKeepsNoDuplicates(labels[1..], labelId);
      assert labels[0] !in labels[1..] by {
        forall k | 0 <= k < |labels[1..]| ensures labels[1..][k] != labels[0] {
          assert labels[1..][k] == labels[k + 1];
        }
      }
    }
  }

  /** Starting without duplicate ids, a toggle leaves the label array without duplicates. */
  lemma ToggleKeepsNoDuplicates(labels: seq<string>, labelId: string)
    requires NoDuplicates(labels)
    ensures NoDuplicates(Toggle(labels, labelId))
  {
    if labelId in labels {
      RemoveKeepsNoDuplicates(labels, labelId);
    }
  }

  /** Toggling a catalog label keeps every label id of the array in the catalog. */
  lemma ToggleKeepsCatalogIds(labels: seq<string>, entry: Label)
    requires entry in Catalog
    requires forall x :: x in labels ==> InCatalog(x)
    ensures forall x :: x in Toggle(labels, entry.id) ==> InCatalog(x)
  {
  }
}
