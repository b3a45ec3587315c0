// What the edits of the collections do, said of the collections before and after: which of them are allowed, the one
// collection each changes, and the members it then has.
module CollectionChanges {
  import opened Wrappers
  import opened Text
  import opened Sequences
  import opened KeywordIndex
  import opened VocabularyEdits
  import opened Journal
  import opened Worlds
  import opened CollectionTree
  import opened CollectionBranch
  import opened CollectionEdits

  // ---------------------------------------------------------------- members

  /** Of the photos the first of each that was not there comes last, in their order; what was there stays before
      them. */
  ghost predicate AddsMembers(before: seq<MemberRef>, photos: seq<PhotoId>, after: seq<MemberRef>) {
    exists more, at ::
      && Picks(photos, more, at) && AreNew(before, photos, at)
      && |after| == |before| + |more| && before <= after
      && forall j | 0 <= j < |more| :: after[|before| + j] == PhotoMember(more[j])
  }

  predicate AreNew(before: seq<MemberRef>, photos: seq<PhotoId>, at: seq<nat>) {
    forall i | 0 <= i < |photos| :: i in at <==> !IsHeld(before, photos[i]) && photos[i] !in photos[..i]
  }

  /** The photo, or a version of it, is a member. */
  predicate IsHeld(members: seq<MemberRef>, photo: PhotoId) {
    exists j :: 0 <= j < |members| && members[j].photo == photo
  }

  /** The photos are taken out, as members in their own right; every other member stays, in its order. */
  ghost predicate TakesMembers(before: seq<MemberRef>, photos: seq<PhotoId>, after: seq<MemberRef>) {
    exists at :: Picks(before, after, at) && forall i | 0 <= i < |before| :: i in at <==> !IsTaken(before[i], photos)
  }

  predicate IsTaken(member: MemberRef, photos: seq<PhotoId>) { member.PhotoMember? && member.photo in photos }

  lemma {:induction false} DistinctlyHolds(photos: seq<PhotoId>)
    ensures forall p :: p in Distinctly(photos) <==> p in photos
  {
    if photos != [] {
      DistinctlyHolds(photos[..|photos| - 1]);
      assert photos == photos[..|photos| - 1] + [photos[|photos| - 1]];
    }
  }

  function NotHeld(members: seq<MemberRef>): PhotoId -> bool { (p: PhotoId) => !Holds(members, p) }

  lemma HeldIsHolds(members: seq<MemberRef>, photo: PhotoId)
    ensures IsHeld(members, photo) <==> Holds(members, photo)
  {
    if m :| m in members && m.photo == photo {
      var j :| 0 <= j < |members| && members[j] == m;
    }
  }

  lemma {:induction false} NewOnes(members: seq<MemberRef>, photos: seq<PhotoId>) returns (at: seq<nat>)
    ensures Picks(photos, Filter(Distinctly(photos), NotHeld(members)), at) && AreNew(members, photos, at)
  {
    hide Picks, AreNew, Filter, Holds, IsHeld;
    if photos == [] {
      at := [];
      PicksAll(photos);
      assert Places(0) == [];
      FilterNothing(NotHeld(members));
      NothingNew(members);
    } else {
      var front, last := photos[..|photos| - 1], photos[|photos| - 1];
      at := NewOnes(members, front);
      DistinctlyHolds(front);
      HeldIsHolds(members, last);
      PicksMore(front, Filter(Distinctly(front), NotHeld(members)), at, last);
      assert photos == front + [last];
      FilterOneMore(Distinctly(front), last, NotHeld(members));
      InFront(front, Filter(Distinctly(front), NotHeld(members)), at);
      OneMoreNew(members, front, last, at);
      var before := Filter(Distinctly(front), NotHeld(members));
      assert before + [] == before;
      if last !in front && !Holds(members, last) {
        at := at + [|front|];
      }
    }
  }

  lemma InFront(front: seq<PhotoId>, kept: seq<PhotoId>, at: seq<nat>)
    requires Picks(front, kept, at)
    ensures forall i | i in at :: i < |front|
  {
  }

  lemma NothingNew(members: seq<MemberRef>)
    ensures AreNew(members, [], [])
  {
  }

  lemma FilterNothing<T>(keep: T -> bool)
    ensures Filter([], keep) == []
  {
  }

  lemma FilterOneMore(items: seq<PhotoId>, last: PhotoId, keep: PhotoId -> bool)
    ensures Filter(items + [last], keep) == Filter(items, keep) + if keep(last) then [last] else []
  {
    assert (items + [last])[..|items|] == items;
  }

  lemma OneMoreNew(members: seq<MemberRef>, front: seq<PhotoId>, last: PhotoId, at: seq<nat>)
    requires AreNew(members, front, at) && forall i | i in at :: i < |front|
    ensures last in front || IsHeld(members, last) ==> AreNew(members, front + [last], at)
    ensures !(last in front || IsHeld(members, last)) ==> AreNew(members, front + [last], at + [|front|])
  {
    hide IsHeld;
    var photos := front + [last];
    forall i | 0 <= i < |photos|
      ensures i < |front| ==> photos[i] == front[i] && photos[..i] == front[..i]
      ensures i == |front| ==> photos[i] == last && photos[..i] == front
    {
    }
  }

  lemma AddingAdds(members: seq<MemberRef>, photos: seq<PhotoId>)
    ensures AddsMembers(members, photos, members + AsMembers(Filter(Distinctly(photos), NotHeld(members))))
    ensures Filter(Distinctly(photos), NotHeld(members)) == [] <==> forall p | p in photos :: IsHeld(members, p)
  {
    hide Picks, AreNew, Filter, Holds, IsHeld;
    var at := NewOnes(members, photos);
    DistinctlyHolds(photos);
    var more := Filter(Distinctly(photos), NotHeld(members));
    FilterHolds(Distinctly(photos), NotHeld(members));
    forall p ensures IsHeld(members, p) <==> !NotHeld(members)(p) {
      HeldIsHolds(members, p);
    }
    if p :| p in photos && !IsHeld(members, p) {
      assert p in more;
    }
    if more != [] {
      assert more[0] in more;
    }
  }

  lemma MakingAdds(photos: seq<PhotoId>)
    ensures AddsMembers([], photos, AsMembers(Distinctly(photos)))
  {
    hide Filter;
    AddingAdds([], photos);
    AllKept(Distinctly(photos), NotHeld([]));
    assert [] + AsMembers(Distinctly(photos)) == AsMembers(Distinctly(photos));
  }

  function StayIn(photos: seq<PhotoId>): MemberRef -> bool {
    (m: MemberRef) => !(m.PhotoMember? && m.photo in photos)
  }

  lemma TakingTakes(members: seq<MemberRef>, photos: seq<PhotoId>)
    ensures TakesMembers(members, photos, Filter(members, StayIn(photos)))
    ensures |Filter(members, StayIn(photos))| == |members| <==>
              forall i | 0 <= i < |members| :: !IsTaken(members[i], photos)
  {
    hide Filter, Picks;
    var at := FilterPicks(members, StayIn(photos));
    FilterLength(members, StayIn(photos));
    if forall i | 0 <= i < |members| :: !IsTaken(members[i], photos) {
      AllKept(members, StayIn(photos));
    } else {
      var i :| 0 <= i < |members| && IsTaken(members[i], photos);
      FilterHolds(members, StayIn(photos));
      assert members[i] in members && members[i] !in Filter(members, StayIn(photos));
    }
  }

  // ---------------------------------------------------------------- what the edits do

  predicate InListing(rows: seq<Row>, parent: Option<CollectionId>) {
    parent.Some? ==> exists r :: r in rows && r.id == parent.value
  }

  /** Another collection of the listing has this parent and the name, whatever the case. */
  predicate TakenBeside(rows: seq<Row>, name: string, parent: Option<CollectionId>, id: Option<CollectionId>,
                        fold: string -> string) {
    exists r :: r in rows && r.parent == parent && Some(r.id) != id && fold(r.name) == fold(name)
  }

  predicate AllKnown(photos: seq<PhotoId>, known: set<PhotoId>) { forall p | p in photos :: p in known }

  predicate ManualThere(cs: Collections, id: CollectionId) { id in cs && cs[id].manual }

  /** Making a collection: a manual one, with the name without the space around it, and the photos; or why not. */
  ghost predicate CreatesCollection(before: Collections, after: Collections, rows: seq<Row>, name: string,
                                    parent: Option<CollectionId>, id: CollectionId, photos: seq<PhotoId>,
                                    known: set<PhotoId>, plan: CollectionPlan, fold: string -> string)
  {
    var named, placed, taken := Trim(name) != "", InListing(rows, parent),
        TakenBeside(rows, Trim(name), parent, None, fold);
    && (plan.Changing? <==> named && placed && !taken && id !in before && AllKnown(photos, known))
    && plan != AsItIs
    && (plan == NotAllowed(CollectionName) <==> !named)
    && (plan == NotAllowed(CollectionNotFound) <==> named && !placed)
    && (plan == NotAllowed(CollectionNameTaken) <==> named && placed && taken)
    && (plan == NotAllowed(CollectionUsed) <==> named && placed && !taken && id in before)
    && (plan == NotAllowed(UnknownPhoto) <==>
          named && placed && !taken && id !in before && !AllKnown(photos, known))
    && if plan.Changing?
       then id in after && after == before[id := Collection(id, Trim(name), true, parent, after[id].members)]
            && AddsMembers([], photos, after[id].members)
       else after == before
  }

  /** Renaming: the one collection has the new name, without the space around it; or why not. */
  predicate RenamesCollection(before: Collections, after: Collections, rows: seq<Row>, id: CollectionId, name: string,
                              plan: CollectionPlan, fold: string -> string)
  {
    var named, there := Trim(name) != "", ManualThere(before, id);
    var taken := there && TakenBeside(rows, Trim(name), before[id].parent, Some(id), fold);
    && (plan.Changing? <==> named && there && !taken && before[id].name != Trim(name))
    && (plan == AsItIs <==> named && there && !taken && before[id].name == Trim(name))
    && (plan == NotAllowed(CollectionName) <==> !named)
    && (plan == NotAllowed(CollectionNotFound) <==> named && !there)
    && (plan == NotAllowed(CollectionNameTaken) <==> named && there && taken)
    && after == if plan.Changing? then before[id := before[id].(name := Trim(name))] else before
  }

  /** Moving: the one collection has the new parent, exactly when it is another one, none or listed, not in the branch,
      and the name is free there; or why not. */
  predicate MovesCollection(before: Collections, after: Collections, rows: seq<Row>, branch: seq<CollectionId>,
                            id: CollectionId, newParent: Option<CollectionId>, plan: CollectionPlan,
                            fold: string -> string)
  {
    var other := ManualThere(before, id) && before[id].parent != newParent;
    var placed, into := InListing(rows, newParent), newParent.Some? && newParent.value in branch;
    var taken := other && TakenBeside(rows, before[id].name, newParent, Some(id), fold);
    && (plan.Changing? <==> other && placed && !into && !taken)
    && (plan == AsItIs <==> ManualThere(before, id) && before[id].parent == newParent)
    && (plan == NotAllowed(CollectionNotFound) <==> !ManualThere(before, id) || (other && !placed))
    && (plan == NotAllowed(CollectionCycle) <==> other && placed && into)
    && (plan == NotAllowed(CollectionNameTaken) <==> other && placed && !into && taken)
    && after == if plan.Changing? then before[id := before[id].(parent := newParent)] else before
  }

  /** Deleting: exactly the branch goes; or it is not listed. */
  predicate DeletesCollection(before: Collections, after: Collections, rows: seq<Row>, branch: seq<CollectionId>,
                              id: CollectionId, plan: CollectionPlan)
  {
    && (plan.Changing? <==> InListing(rows, Some(id)))
    && (!plan.Changing? <==> plan == NotAllowed(CollectionNotFound))
    && after == if plan.Changing? then before - (set k | k in branch) else before
  }

  /** Adding photos: the one collection has the new ones last; or it has them all already, or why not. */
  ghost predicate AddsToCollection(before: Collections, after: Collections, id: CollectionId, photos: seq<PhotoId>,
                                   known: set<PhotoId>, plan: CollectionPlan)
  {
    var there := ManualThere(before, id);
    var all := there && forall p | p in photos :: IsHeld(before[id].members, p);
    && (plan.Changing? <==> there && AllKnown(photos, known) && !all)
    && (plan == AsItIs <==> there && AllKnown(photos, known) && all)
    && (plan == NotAllowed(CollectionNotFound) <==> !there)
    && (plan == NotAllowed(UnknownPhoto) <==> there && !AllKnown(photos, known))
    && if plan.Changing?
       then id in after && after == before[id := before[id].(members := after[id].members)]
            && AddsMembers(before[id].members, photos, after[id].members)
       else after == before
  }

  /** Taking photos out: the one collection is without them; or none of them was a member. */
  ghost predicate TakesFromCollection(before: Collections, after: Collections, id: CollectionId, photos: seq<PhotoId>,
                                      plan: CollectionPlan)
  {
    var there := ManualThere(before, id);
    var none := there && forall i | 0 <= i < |before[id].members| :: !IsTaken(before[id].members[i], photos);
    && (plan.Changing? <==> there && !none)
    && (plan == AsItIs <==> none)
    && (plan == NotAllowed(CollectionNotFound) <==> !there)
    && if plan.Changing?
       then id in after && after == before[id := before[id].(members := after[id].members)]
            && TakesMembers(before[id].members, photos, after[id].members)
       else after == before
  }

  /** The collections a plan leads to. */
  function AfterPlan(cs: Collections, plan: CollectionPlan): Collections {
    if plan.Changing? then PutCollections(cs, plan.deltas, Redo) else cs
  }

  lemma AfterOne(cs: Collections, id: CollectionId, before: Option<Collection>, after: Collection)
    ensures AfterPlan(cs, One(id, before, after)) == cs[id := after]
  {
    CollectionEdits.PutOne(cs, id, before, after);
  }

  lemma ListedIsInListing(rows: seq<Row>, id: CollectionId)
    ensures Listed(rows, id) <==> InListing(rows, Some(id))
  {
    if i :| 0 <= i < |rows| && rows[i].id == id {
      assert rows[i] in rows;
    }
    if r :| r in rows && r.id == id {
      var i :| 0 <= i < |rows| && rows[i] == r;
    }
  }

  lemma FreeIsNotTaken(rows: seq<Row>, name: string, parent: Option<CollectionId>, id: Option<CollectionId>,
                       fold: string -> string)
    ensures FreeAmong(rows, name, parent, id, fold) <==> !TakenBeside(rows, name, parent, id, fold)
  {
    if r :| r in rows && r.parent == parent && Some(r.id) != id && fold(r.name) == fold(name) {
      var i :| 0 <= i < |rows| && rows[i] == r;
    }
    if i :| 0 <= i < |rows| && rows[i].parent == parent && Some(rows[i].id) != id && fold(rows[i].name) == fold(name) {
      assert rows[i] in rows;
    }
  }

  lemma CreatePlanDoes(cs: Collections, rows: seq<Row>, name: string, parent: Option<CollectionId>, id: CollectionId,
                       photos: seq<PhotoId>, known: set<PhotoId>, fold: string -> string)
    ensures var plan := PlanCreateCollection(cs, rows, name, parent, id, photos, known, fold);
            CreatesCollection(cs, AfterPlan(cs, plan), rows, name, parent, id, photos, known, plan, fold)
  {
    hide Trim, FreeAmong, TakenBeside, InListing, Listed, AfterPlan, AddsMembers, Distinctly;
    FreeIsNotTaken(rows, Trim(name), parent, None, fold);
    if parent.Some? {
      ListedIsInListing(rows, parent.value);
    } else {
      NoParentIsListed(rows);
    }
    MakingAdds(photos);
    AfterOne(cs, id, None, Collection(id, Trim(name), true, parent, AsMembers(Distinctly(photos))));
    NothingPlanned(cs, PlanCreateCollection(cs, rows, name, parent, id, photos, known, fold));
  }

  lemma NoParentIsListed(rows: seq<Row>)
    ensures InListing(rows, None)
  {
  }

  lemma NothingPlanned(cs: Collections, plan: CollectionPlan)
    ensures !plan.Changing? ==> AfterPlan(cs, plan) == cs
  {
  }

  lemma RenamePlanDoes(cs: Collections, rows: seq<Row>, id: CollectionId, name: string, fold: string -> string)
    ensures var plan := PlanRenameCollection(cs, rows, id, name, fold);
            RenamesCollection(cs, AfterPlan(cs, plan), rows, id, name, plan, fold)
  {
    hide Trim, FreeAmong, TakenBeside, AfterPlan;
    if id in cs {
      FreeIsNotTaken(rows, Trim(name), cs[id].parent, Some(id), fold);
      AfterOne(cs, id, Some(cs[id]), cs[id].(name := Trim(name)));
    }
    NothingPlanned(cs, PlanRenameCollection(cs, rows, id, name, fold));
  }

  lemma MovePlanDoes(cs: Collections, rows: seq<Row>, branch: seq<CollectionId>, id: CollectionId,
                     newParent: Option<CollectionId>, fold: string -> string)
    ensures var plan := PlanMoveCollection(cs, rows, branch, id, newParent, fold);
            MovesCollection(cs, AfterPlan(cs, plan), rows, branch, id, newParent, plan, fold)
  {
    hide FreeAmong, TakenBeside, InListing, Listed, AfterPlan;
    if newParent.Some? {
      ListedIsInListing(rows, newParent.value);
    } else {
      NoParentIsListed(rows);
    }
    if id in cs {
      FreeIsNotTaken(rows, cs[id].name, newParent, Some(id), fold);
      AfterOne(cs, id, Some(cs[id]), cs[id].(parent := newParent));
    }
    NothingPlanned(cs, PlanMoveCollection(cs, rows, branch, id, newParent, fold));
  }

  lemma DeletePlanDoes(cs: Collections, rows: seq<Row>, branch: seq<CollectionId>, id: CollectionId)
    requires NoRepeats(branch)
    ensures var plan := PlanDeleteCollection(cs, rows, branch, id);
            DeletesCollection(cs, AfterPlan(cs, plan), rows, branch, id, plan)
  {
    hide InListing, Listed, Removals;
    ListedIsInListing(rows, id);
    RemovalsTakeOut(cs, branch);
  }

  lemma AddPlanDoes(cs: Collections, id: CollectionId, photos: seq<PhotoId>, known: set<PhotoId>)
    ensures var plan := PlanAddPhotos(cs, id, photos, known);
            AddsToCollection(cs, AfterPlan(cs, plan), id, photos, known, plan)
  {
    hide AfterPlan, AddsMembers, Filter, Distinctly, IsHeld, Holds;
    if IsManual(cs, id) {
      var members := cs[id].members;
      AddingAdds(members, photos);
      SameFilter(Distinctly(photos), p => !Holds(members, p), NotHeld(members));
      AfterOne(cs, id, Some(cs[id]),
               cs[id].(members := members + AsMembers(Filter(Distinctly(photos), NotHeld(members)))));
    }
    NothingPlanned(cs, PlanAddPhotos(cs, id, photos, known));
  }

  lemma {:induction false} SameFilter<T>(items: seq<T>, keep: T -> bool, also: T -> bool)
    requires forall x | x in items :: keep(x) == also(x)
    ensures Filter(items, keep) == Filter(items, also)
  {
    if items != [] {
      assert items == items[..|items| - 1] + [items[|items| - 1]];
      SameFilter(items[..|items| - 1], keep, also);
    }
  }

  lemma TakeOutPlanDoes(cs: Collections, id: CollectionId, photos: seq<PhotoId>)
    ensures var plan := PlanTakeOutPhotos(cs, id, photos);
            TakesFromCollection(cs, AfterPlan(cs, plan), id, photos, plan)
  {
    hide AfterPlan, TakesMembers, Filter;
    if IsManual(cs, id) {
      var members := cs[id].members;
      TakingTakes(members, photos);
      SameFilter(members, (m: MemberRef) => !(m.PhotoMember? && m.photo in photos), StayIn(photos));
      AfterOne(cs, id, Some(cs[id]), cs[id].(members := Filter(members, StayIn(photos))));
    }
    NothingPlanned(cs, PlanTakeOutPhotos(cs, id, photos));
  }
}
