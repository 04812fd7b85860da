/** When a failed sync step is made good: the exact state of a core, and the exact inputs of a failed step, after which
    a later successful step ends in agreement with the panel's list (node/task.go, core/user.go). */
module SyncRepair {
  import opened Text
  import opened Panel
  import opened UserDiff
  import opened UserRegistry
  import opened UserSync
  import SyncRuns

  // ---- One successful step from any state ----

  /** The user can authenticate and has the id the panel lists. */
  ghost predicate Ready(r: Registry, tag: string, v: UserInfo)
    requires tag in r.managers
  {
    var e := UserTag(tag, v.uuid);
    e in r.managers[tag] && e in r.uidMap && r.uidMap[e] == v.id
  }

  /** Users the step leaves alone are ready already, and whoever else is there is listed or deleted by the step. */
  ghost predicate Mendable(r: Registry, tag: string, newList: seq<UserInfo>, deleted: seq<UserInfo>,
                           added: seq<UserInfo>)
    requires tag in r.managers
  {
    && (forall v | v in newList && v !in added :: Ready(r, tag, v))
    && r.managers[tag] <= Emails(tag, newList) + Emails(tag, deleted)
    && (forall e | e in r.uidMap && OwnedBy(e, tag) :: e in Emails(tag, newList) + Emails(tag, deleted))
  }

  ghost function Patched(r: Registry, tag: string, deleted: seq<UserInfo>, added: seq<UserInfo>): Registry
    requires tag in r.managers
  {
    AfterAddUsers(AfterDelUsers(r, tag, deleted), tag, added, added)
  }

  /** A user left alone has a key that is neither deleted nor added. */
  lemma LeftAlone(tag: string, oldList: seq<UserInfo>, newList: seq<UserInfo>, deleted: seq<UserInfo>,
                  added: seq<UserInfo>, v: UserInfo)
    requires Splits(oldList, newList, deleted, added) && v in newList && v !in added
    ensures UserTag(tag, v.uuid) !in Emails(tag, deleted) && UserTag(tag, v.uuid) !in Emails(tag, added)
  {
    hide Emails; hide UserTag; hide Uuids;
    AddedOrKept(oldList, newList, deleted, added, v);
    InEmails(tag, deleted, v.uuid);
    InEmails(tag, added, v.uuid);
  }

  lemma PatchedForm(r: Registry, tag: string, deleted: seq<UserInfo>, added: seq<UserInfo>)
    requires tag in r.managers
    ensures var p := Patched(r, tag, deleted, added);
            && tag in p.managers && p.managers[tag] == r.managers[tag] - Emails(tag, deleted) + Emails(tag, added)
            && p.uidMap.Keys == r.uidMap.Keys - Emails(tag, deleted) + Emails(tag, added)
            && (forall e | e in p.uidMap && e !in Emails(tag, added) :: p.uidMap[e] == r.uidMap[e])
            && (forall e | e in Emails(tag, added) ::
                e in UidMapOf(tag, added) && p.uidMap[e] == UidMapOf(tag, added)[e])
  {
    hide Emails; hide UidMapOf;
    UidMapOfEmails(tag, added);
  }

  lemma AddedAreReady(r: Registry, tag: string, deleted: seq<UserInfo>, added: seq<UserInfo>, v: UserInfo)
    requires tag in r.managers && DistinctUuids(added) && v in added
    ensures var p := Patched(r, tag, deleted, added);
            tag in p.managers && Ready(p, tag, v)
  {
    hide Patched; hide UidMapOf; hide UserTag;
    PatchedForm(r, tag, deleted, added);
    MapsOfUsers(tag, added);
  }

  lemma KeptStayReady(r: Registry, tag: string, deleted: seq<UserInfo>, added: seq<UserInfo>, v: UserInfo)
    requires tag in r.managers
    requires UserTag(tag, v.uuid) !in Emails(tag, deleted) && UserTag(tag, v.uuid) !in Emails(tag, added)
    ensures var p := Patched(r, tag, deleted, added);
            tag in p.managers && (Ready(p, tag, v) <==> Ready(r, tag, v))
  {
    hide Patched; hide UidMapOf; hide UserTag; hide Emails;
    PatchedForm(r, tag, deleted, added);
  }

  lemma AgreesByParts(r: Registry, tag: string, users: seq<UserInfo>)
    ensures CoreAgrees(r, tag, users) <==>
            && tag in r.managers && r.managers[tag] <= Emails(tag, users)
            && (forall v | v in users :: Ready(r, tag, v))
            && (forall e | e in r.uidMap && OwnedBy(e, tag) :: e in Emails(tag, users))
  {
    hide UserTag; hide OwnedBy;
  }

  lemma AddedAreListed(tag: string, oldList: seq<UserInfo>, newList: seq<UserInfo>, deleted: seq<UserInfo>,
                       added: seq<UserInfo>)
    requires Splits(oldList, newList, deleted, added)
    ensures Emails(tag, added) <= Emails(tag, newList)
  {
    hide UserTag;
  }

  /** Whatever state failures have left: a successful step ends in agreement exactly when that state is mendable by
      it. */
  lemma SuccessAgreesExactly(r: Registry, tag: string, oldList: seq<UserInfo>, newList: seq<UserInfo>,
                             deleted: seq<UserInfo>, added: seq<UserInfo>)
    requires Splits(oldList, newList, deleted, added) && tag in r.managers
    ensures CoreAgrees(Patched(r, tag, deleted, added), tag, newList) <==> Mendable(r, tag, newList, deleted, added)
  {
    hide UserTag; hide OwnedBy; hide Emails; hide UidMapOf; hide Patched; hide Ready; hide CoreAgrees;
    var p := Patched(r, tag, deleted, added);
    PatchedForm(r, tag, deleted, added);
    AgreesByParts(p, tag, newList);
    AddedAreListed(tag, oldList, newList, deleted, added);
    forall v | v in newList ensures Ready(p, tag, v) <==> v in added || Ready(r, tag, v) {
      if v in added {
        assert DistinctUuids(added);
        AddedAreReady(r, tag, deleted, added, v);
      } else {
        LeftAlone(tag, oldList, newList, deleted, added, v);
        KeptStayReady(r, tag, deleted, added, v);
      }
    }
  }

  // ---- A failed step and a successful one ----

  /** What a failed step did to a node that agreed before: it removed some users, wrote some ids and entered some
      users. */
  datatype Damage = Damage(removed: seq<UserInfo>, ids: seq<UserInfo>, entered: seq<UserInfo>)

  ghost function DamageOf(r: Registry, tag: string, nodeType: string, x: SyncInput): Damage {
    Damage(SyncRuns.Removed(x), SyncRuns.IdsWritten(r, tag, x), SyncRuns.Entered(r, tag, nodeType, x))
  }

  ghost function Damaged(r: Registry, tag: string, d: Damage): Registry
    requires tag in r.managers
  {
    AfterAddUsers(AfterDelUsers(r, tag, d.removed), tag, d.ids, d.entered)
  }

  /** A user who was removed has been entered again, and the id last written for the user is the listed one. */
  ghost predicate Spared(oldList: seq<UserInfo>, d: Damage, v: UserInfo) {
    && (v.uuid in Uuids(d.removed) ==> v.uuid in Uuids(d.entered))
    && exists u | u in (if v.uuid in Uuids(d.ids) then d.ids else oldList) :: u.uuid == v.uuid && u.id == v.id
  }

  /** The later step can make good: it keeps only spared users, and it lists or deletes all users whose ids were
      written. */
  ghost predicate Mends(oldList: seq<UserInfo>, d: Damage, y: SyncInput) {
    && (forall v | v in y.newList && v !in y.added :: Spared(oldList, d, v))
    && (forall w | w in d.ids :: w.uuid in Uuids(y.newList) + Uuids(y.deleted))
  }

  lemma DamagedForm(r: Registry, tag: string, d: Damage)
    requires tag in r.managers
    ensures var p := Damaged(r, tag, d);
            && tag in p.managers && p.managers[tag] == r.managers[tag] - Emails(tag, d.removed) + Emails(tag, d.entered)
            && p.uidMap.Keys == r.uidMap.Keys - Emails(tag, d.removed) + Emails(tag, d.ids)
            && (forall e | e in p.uidMap && e !in Emails(tag, d.ids) :: p.uidMap[e] == r.uidMap[e])
            && (forall e | e in Emails(tag, d.ids) ::
                e in UidMapOf(tag, d.ids) && p.uidMap[e] == UidMapOf(tag, d.ids)[e])
  {
    hide Emails; hide UidMapOf;
    UidMapOfEmails(tag, d.ids);
  }

  /** What holds of the damage of every step: ids are written only after all removals, and only for whom is then
      entered. */
  ghost predicate Plausible(d: Damage) {
    DistinctUuids(d.ids) && (forall u | u in d.entered :: u in d.ids) && (forall u | u in d.ids :: '|' !in u.uuid)
  }

  lemma SparedIsReady(r: Registry, tag: string, oldList: seq<UserInfo>, d: Damage, v: UserInfo)
    requires CoreAgrees(r, tag, oldList) && DistinctUuids(oldList) && Plausible(d)
    requires v.uuid in Uuids(oldList)
    ensures tag in Damaged(r, tag, d).managers && (Ready(Damaged(r, tag, d), tag, v) <==> Spared(oldList, d, v))
  {
    hide UserTag; hide OwnedBy; hide UidMapOf; hide Damaged; hide Emails;
    DamagedForm(r, tag, d);
    InEmails(tag, oldList, v.uuid);
    InEmails(tag, d.removed, v.uuid);
    InEmails(tag, d.ids, v.uuid);
    InEmails(tag, d.entered, v.uuid);
    EnteredAreWritten(d, v);
    MapsOfUsers(tag, d.ids);
    SameUuidSameUserAll(d.ids);
    SameUuidSameUserAll(oldList);
  }

  lemma EnteredAreWritten(d: Damage, v: UserInfo)
    requires Plausible(d)
    ensures v.uuid in Uuids(d.entered) ==> v.uuid in Uuids(d.ids)
  {
  }

  lemma OldAreCovered(tag: string, oldList: seq<UserInfo>, newList: seq<UserInfo>, deleted: seq<UserInfo>,
                      added: seq<UserInfo>)
    requires Splits(oldList, newList, deleted, added)
    ensures Emails(tag, oldList) <= Emails(tag, newList) + Emails(tag, deleted)
  {
    hide UserTag; hide Splits;
    forall u | u in oldList ensures UserTag(tag, u.uuid) in Emails(tag, newList) + Emails(tag, deleted) {
      InEmails(tag, deleted, u.uuid);
      InEmails(tag, newList, u.uuid);
      if u.uuid !in Uuids(deleted) {
        KeptIsNew(oldList, newList, deleted, added, u);
      }
    }
  }

  /** Written ids are covered by the later step user by user exactly if they are key by key. */
  lemma CoveredByKeys(tag: string, ids: seq<UserInfo>, newList: seq<UserInfo>, deleted: seq<UserInfo>)
    ensures (forall w | w in ids :: w.uuid in Uuids(newList) + Uuids(deleted)) <==>
            Emails(tag, ids) <= Emails(tag, newList) + Emails(tag, deleted)
  {
    hide UserTag; hide Uuids;
    forall w | w in ids
      ensures w.uuid in Uuids(newList) + Uuids(deleted) <==>
              UserTag(tag, w.uuid) in Emails(tag, newList) + Emails(tag, deleted)
    {
      InEmails(tag, newList, w.uuid);
      InEmails(tag, deleted, w.uuid);
    }
  }

  lemma IdsAreOwned(tag: string, d: Damage)
    requires Plausible(d)
    ensures (forall e | e in Emails(tag, d.ids) :: OwnedBy(e, tag)) && Emails(tag, d.entered) <= Emails(tag, d.ids)
  {
    SyncRuns.EmailsOwned(tag, d.ids);
    hide UserTag; hide OwnedBy;
  }

  lemma MendableExactly(r: Registry, tag: string, oldList: seq<UserInfo>, d: Damage, y: SyncInput)
    requires CoreAgrees(r, tag, oldList) && Plausible(d) && Splits(oldList, y.newList, y.deleted, y.added)
    ensures tag in Damaged(r, tag, d).managers
    ensures Mendable(Damaged(r, tag, d), tag, y.newList, y.deleted, y.added) <==> Mends(oldList, d, y)
  {
    forall v | v in y.newList && v !in y.added
      ensures tag in Damaged(r, tag, d).managers && (Ready(Damaged(r, tag, d), tag, v) <==> Spared(oldList, d, v))
    {
      hide CoreAgrees; hide Plausible; hide Damaged; hide Ready; hide Spared;
      AddedOrKept(oldList, y.newList, y.deleted, y.added, v);
      SparedIsReady(r, tag, oldList, d, v);
    }
    DamagedForm(r, tag, d);
    OldAreCovered(tag, oldList, y.newList, y.deleted, y.added);
    CoveredByKeys(tag, d.ids, y.newList, y.deleted);
    IdsAreOwned(tag, d);
    hide UserTag; hide OwnedBy; hide UidMapOf; hide Damaged; hide Emails; hide Ready; hide Spared; hide Splits;
    hide Plausible;
    hide Uuids;
  }

  lemma DamageIsPlausible(r: Registry, tag: string, n: NodeState, x: SyncInput, uuidLength: nat)
    requires SyncRuns.PanelInput(n, x, uuidLength)
    ensures Plausible(DamageOf(r, tag, n.nodeType, x))
  {
    hide IsDiff; hide RemovalsOk; hide DistinctKeys;
    SyncRuns.SplitsOfDiff(n, x, uuidLength);
  }

  /** A step fails on a node that agreed, and a later step succeeds. The node then agrees with the panel's list exactly
      when the later step keeps only users the failed one spared and lists or deletes every user whose id the failed one
      wrote. Both can be read off the two steps' inputs before the later one is made. */
  lemma FailureMendedExactly(r: Registry, tag: string, n: NodeState, x: SyncInput, y: SyncInput, uuidLength: nat)
    requires CoreAgrees(r, tag, n.users) && HasList(x) && HasList(y)
    requires SyncRuns.PanelInput(n, x, uuidLength) && SyncRuns.PanelInput(n, y, uuidLength)
    requires !SyncOk(r, tag, n.nodeType, x) && SyncOk(SyncRegistry(r, tag, n.nodeType, x), tag, n.nodeType, y)
    ensures SyncNode(r, tag, n, x).users == n.users
    ensures CoreAgrees(SyncRegistry(SyncRegistry(r, tag, n.nodeType, x), tag, n.nodeType, y), tag, y.newList) <==>
            Mends(n.users, DamageOf(r, tag, n.nodeType, x), y)
  {
    assert tag in r.managers;
    DamageIsPlausible(r, tag, n, x, uuidLength);
    SyncRuns.SplitsOfDiff(n, y, uuidLength);
    hide CoreAgrees; hide Mendable; hide Mends; hide SyncRuns.PanelInput; hide SyncRegistry; hide AfterDelUsers;
    hide AfterAddUsers; hide SyncOk; hide Splits; hide Plausible;
    var r1 := SyncRegistry(r, tag, n.nodeType, x);
    SyncRuns.SyncRegistryForm(r, tag, n.nodeType, x);
    MendableExactly(r, tag, n.users, DamageOf(r, tag, n.nodeType, x), y);
    SyncRuns.SyncRegistryForm(r1, tag, n.nodeType, y);
    SyncRuns.CompleteSync(r1, tag, n, y);
    SuccessAgreesExactly(r1, tag, n.users, y.newList, y.deleted, y.added);
  }

  /** In every run, however many steps have failed before: a successful step of a node ends in agreement exactly when
      the state it starts from is mendable by it. */
  lemma RunMendsExactly(states: seq<SyncRuns.System>, events: seq<SyncRuns.Event>, uuidLength: nat, i: nat)
    requires SyncRuns.IsRun(states, events, uuidLength) && i < |events| && events[i].Sync? && HasList(events[i].input)
    requires var n := states[i].nodes[events[i].tag];
             SyncOk(states[i].registry, events[i].tag, n.nodeType, events[i].input)
    ensures var (r, tag, y) := (states[i].registry, events[i].tag, events[i].input);
            && tag in r.managers
            && (CoreAgrees(states[i + 1].registry, tag, y.newList) <==> Mendable(r, tag, y.newList, y.deleted, y.added))
  {
    hide CoreAgrees; hide Mendable; hide SyncRegistry; hide SyncOk; hide AfterDelUsers; hide AfterAddUsers; hide Splits;
    hide SyncNode; hide PanelList; hide IsDiff; hide SyncRuns.RegistryInv; hide IdsKept;
    var r, tag, y := states[i].registry, events[i].tag, events[i].input;
    SyncRuns.RunKeepsInv(states, events, uuidLength, i);
    assert SyncRuns.Allowed(states[i], events[i], uuidLength);
    var n := states[i].nodes[tag];
    assert SyncRuns.NodeInv(r, tag, n, uuidLength);
    SyncRuns.SplitsOfDiff(n, y, uuidLength);
    SyncRuns.SyncRegistryForm(r, tag, n.nodeType, y);
    SyncRuns.CompleteSync(r, tag, n, y);
    SuccessAgreesExactly(r, tag, n.users, y.newList, y.deleted, y.added);
  }

  /** The damage comes from a step that split the lists. */
  ghost predicate Within(d: Damage, deleted: seq<UserInfo>, added: seq<UserInfo>) {
    (forall u | u in d.removed :: u in deleted) && (forall u | u in d.ids :: u in added)
  }

  lemma UuidsWithin(d: Damage, deleted: seq<UserInfo>, added: seq<UserInfo>)
    requires Within(d, deleted, added)
    ensures Uuids(d.removed) <= Uuids(deleted) && Uuids(d.ids) <= Uuids(added)
  {
  }

  lemma SameListMends(oldList: seq<UserInfo>, x: SyncInput, y: SyncInput, d: Damage)
    requires Splits(oldList, x.newList, x.deleted, x.added) && Splits(oldList, y.newList, y.deleted, y.added)
    requires y.newList == x.newList && Within(d, x.deleted, x.added)
    ensures Mends(oldList, d, y) <==> IdsKept(oldList, y.newList)
  {
    UuidsWithin(d, x.deleted, x.added);
    forall v | v in y.newList && v !in y.added
      ensures Spared(oldList, d, v) <==> exists u | u in oldList :: Identity(u) == Identity(v) && u.id == v.id
    {
      assert v !in x.added;
      AddedOrKept(oldList, x.newList, x.deleted, x.added, v);
      SameUuidSameUserAll(oldList);
    }
    KeptIdsExactly(oldList, y);
    hide Spared; hide Splits;
    assert forall w | w in d.ids :: w.uuid in Uuids(y.newList) by {
      forall w | w in d.ids ensures w in y.newList {
        assert Splits(oldList, x.newList, x.deleted, x.added);
      }
    }
  }

  lemma KeptIdsExactly(oldList: seq<UserInfo>, y: SyncInput)
    requires Splits(oldList, y.newList, y.deleted, y.added)
    ensures IdsKept(oldList, y.newList) <==>
            forall v | v in y.newList && v !in y.added ::
              exists u | u in oldList :: Identity(u) == Identity(v) && u.id == v.id
  {
    SameUuidSameUserAll(oldList);
    forall u, v | u in oldList && v in y.newList && Identity(u) == Identity(v) ensures v !in y.added {
    }
  }

  /** Trying the same list again makes good whatever failed, unless a kept user changed id: then it agrees no more than
      a step without failures would. */
  lemma RetryMendsExactly(r: Registry, tag: string, n: NodeState, x: SyncInput, y: SyncInput, uuidLength: nat)
    requires CoreAgrees(r, tag, n.users) && HasList(x) && HasList(y) && y.newList == x.newList
    requires SyncRuns.PanelInput(n, x, uuidLength) && SyncRuns.PanelInput(n, y, uuidLength)
    requires !SyncOk(r, tag, n.nodeType, x) && SyncOk(SyncRegistry(r, tag, n.nodeType, x), tag, n.nodeType, y)
    ensures CoreAgrees(SyncRegistry(SyncRegistry(r, tag, n.nodeType, x), tag, n.nodeType, y), tag, y.newList) <==>
            IdsKept(n.users, y.newList)
  {
    FailureMendedExactly(r, tag, n, x, y, uuidLength);
    SyncRuns.SplitsOfDiff(n, x, uuidLength);
    SyncRuns.SplitsOfDiff(n, y, uuidLength);
    assert Within(DamageOf(r, tag, n.nodeType, x), x.deleted, x.added);
    hide *;
    SameListMends(n.users, x, y, DamageOf(r, tag, n.nodeType, x));
  }
}
