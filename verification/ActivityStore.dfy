/** The in-memory store of activities, with three indexes that share the activities. */
module ActivityStore {
  import opened Wrappers

  class Activity {
    const id: string
    const workspaceID: Option<string>
    const createdAt: int
    var changeID: Option<string>

    constructor (id: string, workspaceID: Option<string>, createdAt: int, changeID: Option<string>)
      ensures this.id == id && this.workspaceID == workspaceID && this.createdAt == createdAt && this.changeID == changeID
    {
      this.id, this.workspaceID, this.createdAt, this.changeID := id, workspaceID, createdAt, changeID;
    }

    method SetChange(change: string, ghost all: set<Activity>)
      requires this in all
      modifies this
      ensures Tags(all) == old(Tags(all))[this := Some(change)]
    {
      changeID := Some(change);
    }
  }

  /** The activities of a workspace, in order. */
  ghost function OfWorkspace(created: seq<Activity>, workspaceID: string): seq<Activity>
  {
    if created == [] then []
    else
      var a := created[|created| - 1];
      OfWorkspace(created[..|created| - 1], workspaceID) + if a.workspaceID == Some(workspaceID) then [a] else []
  }

  lemma {:induction false} InWorkspace(created: seq<Activity>, workspaceID: string, a: Activity)
    ensures a in OfWorkspace(created, workspaceID) <==> a in created && a.workspaceID == Some(workspaceID)
    decreases |created|
  {
    if created != [] {
      var n := |created| - 1;
      InWorkspace(created[..n], workspaceID, a);
      assert created == created[..n] + [created[n]];
    }
  }

  /** An activity was created before another one. */
  ghost predicate Before(created: seq<Activity>, a: Activity, b: Activity)
  {
    exists i, j :: 0 <= i < j < |created| && created[i] == a && created[j] == b
  }

  /** The activities of a workspace are in the order in which they were created. */
  lemma {:induction false} WorkspaceIsInOrder(created: seq<Activity>, workspaceID: string, i: nat, j: nat)
    requires i < j < |OfWorkspace(created, workspaceID)|
    ensures Before(created, OfWorkspace(created, workspaceID)[i], OfWorkspace(created, workspaceID)[j])
    decreases |created|
  {
    var n := |created| - 1;
    var rest := OfWorkspace(created[..n], workspaceID);
    var a := OfWorkspace(created, workspaceID)[i];
    assert a == rest[i];
    if j < |rest| {
      WorkspaceIsInOrder(created[..n], workspaceID, i, j);
      var p, q :| 0 <= p < q < n && created[..n][p] == a && created[..n][q] == rest[j];
      assert created[p] == a && created[q] == rest[j];
    } else {
      InWorkspace(created[..n], workspaceID, a);
      var p :| 0 <= p < n && created[..n][p] == a;
      assert created[p] == a && created[n] == OfWorkspace(created, workspaceID)[j];
    }
  }

  predicate Distinct<T(==)>(s: seq<T>)
  {
    forall i, j :: 0 <= i < j < |s| ==> s[i] != s[j]
  }

  lemma {:induction false} WorkspaceIsDistinct(created: seq<Activity>, workspaceID: string)
    requires Distinct(created)
    ensures Distinct(OfWorkspace(created, workspaceID))
    decreases |created|
  {
    if created != [] {
      var n := |created| - 1;
      WorkspaceIsDistinct(created[..n], workspaceID);
      InWorkspace(created[..n], workspaceID, created[n]);
    }
  }

  function Lookup(index: map<string, seq<Activity>>, key: string): seq<Activity>
  {
    if key in index then index[key] else []
  }

  /** The changes that activities name. */
  ghost function Tags(all: set<Activity>): map<Activity, Option<string>>
    reads all
  {
    map a | a in all :: a.changeID
  }

  /** No activity with this id was created later. */
  ghost predicate NoneAfter(created: seq<Activity>, i: nat, id: string)
  {
    forall j :: i < j < |created| ==> created[j].id != id
  }

  /** The last activity that was created with this id. */
  ghost function Latest(created: seq<Activity>, id: string): (r: Option<Activity>)
    ensures r.Some? ==> r.value in created && r.value.id == id
    ensures r.Some? ==> exists i :: 0 <= i < |created| && created[i] == r.value && NoneAfter(created, i, id)
    ensures r.None? ==> forall a :: a in created ==> a.id != id
  {
    if created == [] then None
    else
      var a := created[|created| - 1];
      if a.id == id then Some(a) else Latest(created[..|created| - 1], id)
  }

  /** Under every id the latest activity with it. */
  ghost predicate IdsAgree(byID: map<string, Activity>, created: seq<Activity>)
  {
    forall id :: Latest(created, id) == if id in byID then Some(byID[id]) else None
  }

  /** The activities of every workspace, in the order in which they were created. */
  ghost predicate WorkspacesAgree(byWorkspaceID: map<string, seq<Activity>>, created: seq<Activity>)
  {
    forall w :: Lookup(byWorkspaceID, w) == OfWorkspace(created, w)
  }

  /** Under a change exactly the activities that name it, each once. */
  ghost predicate ChangesAgree(byChangeID: map<string, seq<Activity>>, tags: map<Activity, Option<string>>)
  {
    && (forall c :: AllNamed(Lookup(byChangeID, c), c, tags))
    && (forall a :: a in tags && tags[a].Some? ==> a in Lookup(byChangeID, tags[a].value))
  }

  ghost predicate AllNamed(activities: seq<Activity>, c: string, tags: map<Activity, Option<string>>)
  {
    Distinct(activities) && forall a :: a in activities ==> a in tags && tags[a] == Some(c)
  }

  lemma NewWorkspaceActivity(byWorkspaceID: map<string, seq<Activity>>, created: seq<Activity>, a: Activity)
    requires WorkspacesAgree(byWorkspaceID, created)
    ensures a.workspaceID.None? ==> WorkspacesAgree(byWorkspaceID, created + [a])
    ensures a.workspaceID.Some? ==>
              WorkspacesAgree(byWorkspaceID[a.workspaceID.value := Lookup(byWorkspaceID, a.workspaceID.value) + [a]],
                              created + [a])
  {
    assert (created + [a])[..|created|] == created;
    var w0 := if a.workspaceID.Some? then a.workspaceID.value else "";
    var after := if a.workspaceID.Some? then byWorkspaceID[w0 := Lookup(byWorkspaceID, w0) + [a]] else byWorkspaceID;
    forall w
      ensures Lookup(after, w) == OfWorkspace(created + [a], w)
    {
      assert Lookup(byWorkspaceID, w) + [] == Lookup(byWorkspaceID, w);
    }
  }

  /** Naming a change that the activity did not name before. */
  lemma Tagged(byChangeID: map<string, seq<Activity>>, tags: map<Activity, Option<string>>, a: Activity, c: string)
    requires ChangesAgree(byChangeID, tags) && (a in tags ==> tags[a].None?)
    ensures ChangesAgree(byChangeID[c := Lookup(byChangeID, c) + [a]], tags[a := Some(c)])
  {
    var after, now := byChangeID[c := Lookup(byChangeID, c) + [a]], tags[a := Some(c)];
    forall d
      ensures AllNamed(Lookup(after, d), d, now)
    {
      assert AllNamed(Lookup(byChangeID, d), d, tags);
    }
  }

  lemma Untagged(byChangeID: map<string, seq<Activity>>, tags: map<Activity, Option<string>>, a: Activity)
    requires ChangesAgree(byChangeID, tags) && a !in tags
    ensures ChangesAgree(byChangeID, tags[a := None])
  {
    forall d
      ensures AllNamed(Lookup(byChangeID, d), d, tags[a := None])
    {
      assert AllNamed(Lookup(byChangeID, d), d, tags);
    }
  }

  lemma TagsAre(all: set<Activity>, tags: map<Activity, Option<string>>)
    requires tags == Tags(all)
    ensures tags.Keys == all && forall a :: a in all ==> tags[a] == a.changeID
  {
  }

  /** The same tags, but for these activities, which are given a change if they name none. */
  ghost function Retagged(tags: map<Activity, Option<string>>, activities: seq<Activity>, c: string)
    : map<Activity, Option<string>>
  {
    map a | a in tags :: if tags[a].None? && a in activities then Some(c) else tags[a]
  }

  /** After naming a change for a workspace none of its activities is without one, and no
      activity that had one has another. */
  lemma NoneLeftUnnamed(tags: map<Activity, Option<string>>, created: seq<Activity>, workspaceID: string, c: string, a: Activity)
    requires a in tags && a in created
    ensures var after := Retagged(tags, OfWorkspace(created, workspaceID), c);
            && a in after
            && (tags[a].Some? ==> after[a] == tags[a])
            && (tags[a].None? ==> after[a] == if a.workspaceID == Some(workspaceID) then Some(c) else None)
  {
    InWorkspace(created, workspaceID, a);
  }

  lemma RetaggedOne(tags: map<Activity, Option<string>>, a: Activity, c: string)
    requires a in tags
    ensures Retagged(tags, [a], c) == if tags[a].None? then tags[a := Some(c)] else tags
  {
  }

  lemma RetaggedTwice(tags: map<Activity, Option<string>>, activities: seq<Activity>, a: Activity, c: string)
    ensures Retagged(Retagged(tags, activities, c), [a], c) == Retagged(tags, activities + [a], c)
  {
  }

  lemma TagsOfMore(all: set<Activity>, a: Activity)
    ensures Tags(all + {a}) == Tags(all)[a := a.changeID]
  {
  }

  lemma NewChangeActivity(byChangeID: map<string, seq<Activity>>, all: set<Activity>, a: Activity)
    requires ChangesAgree(byChangeID, Tags(all)) && a !in all
    ensures a.changeID.None? ==> ChangesAgree(byChangeID, Tags(all + {a}))
    ensures a.changeID.Some? ==>
              ChangesAgree(byChangeID[a.changeID.value := Lookup(byChangeID, a.changeID.value) + [a]], Tags(all + {a}))
  {
    TagsAre(all, Tags(all));
    TagsOfMore(all, a);
    if a.changeID.Some? {
      Tagged(byChangeID, Tags(all), a, a.changeID.value);
    } else {
      Untagged(byChangeID, Tags(all), a);
    }
  }

  lemma IdsOfMore(byID: map<string, Activity>, created: seq<Activity>, a: Activity)
    requires IdsAgree(byID, created) && Distinct(created) && a !in created
    ensures IdsAgree(byID[a.id := a], created + [a]) && Distinct(created + [a])
    ensures (set b | b in created + [a]) == (set b | b in created) + {a}
  {
    assert (created + [a])[..|created|] == created;
    forall id
      ensures Latest(created + [a], id) == if id == a.id then Some(a) else Latest(created, id)
    {
    }
  }

  /** These have been put behind what was listed under a change, and nothing else in the index has changed. */
  ghost predicate Appended(before: map<string, seq<Activity>>, after: map<string, seq<Activity>>, c: string, more: seq<Activity>)
  {
    forall d :: Lookup(after, d) == if d == c then Lookup(before, d) + more else Lookup(before, d)
  }

  /** The activities that name no change, in order. */
  ghost function Unnamed(activities: seq<Activity>, tags: map<Activity, Option<string>>): seq<Activity>
  {
    if activities == [] then []
    else
      var a := activities[|activities| - 1];
      Unnamed(activities[..|activities| - 1], tags) + if a in tags && tags[a].None? then [a] else []
  }

  lemma UnnamedMore(activities: seq<Activity>, a: Activity, tags: map<Activity, Option<string>>)
    ensures Unnamed(activities + [a], tags) == Unnamed(activities, tags) + if a in tags && tags[a].None? then [a] else []
  {
    assert (activities + [a])[..|activities|] == activities;
  }

  lemma NothingAppended(now: map<string, seq<Activity>>, c: string)
    ensures Appended(now, now, c, [])
  {
    assert forall d :: Lookup(now, d) + [] == Lookup(now, d);
  }

  lemma AppendsOne(now: map<string, seq<Activity>>, c: string, a: Activity)
    ensures Appended(now, now[c := Lookup(now, c) + [a]], c, [a])
  {
  }

  lemma AppendedTwice(a: map<string, seq<Activity>>, b: map<string, seq<Activity>>, c: map<string, seq<Activity>>,
                      key: string, first: seq<Activity>, second: seq<Activity>)
    requires Appended(a, b, key, first) && Appended(b, c, key, second)
    ensures Appended(a, c, key, first + second)
  {
    assert Lookup(a, key) + first + second == Lookup(a, key) + (first + second);
  }

  /** These activities have been given the change if they named none, and are listed under it, in order. */
  ghost predicate AreNamed(before: map<Activity, Option<string>>, now: map<Activity, Option<string>>,
                           index: map<string, seq<Activity>>, after: map<string, seq<Activity>>,
                           activities: seq<Activity>, c: string)
  {
    now == Retagged(before, activities, c) && Appended(index, after, c, Unnamed(activities, before))
  }

  lemma NothingNamed(tags: map<Activity, Option<string>>, index: map<string, seq<Activity>>, c: string)
    ensures AreNamed(tags, tags, index, index, [], c)
  {
    NothingAppended(index, c);
  }

  lemma OneMoreNamed(before: map<Activity, Option<string>>, tags: map<Activity, Option<string>>,
                     now: map<Activity, Option<string>>, index: map<string, seq<Activity>>, mid: map<string, seq<Activity>>,
                     after: map<string, seq<Activity>>, activities: seq<Activity>, i: nat, c: string)
    requires i < |activities| && Distinct(activities) && activities[i] in tags
    requires AreNamed(before, tags, index, mid, activities[..i], c) && now == Retagged(tags, [activities[i]], c)
    requires Appended(mid, after, c, if tags[activities[i]].None? then [activities[i]] else [])
    ensures AreNamed(before, now, index, after, activities[..i + 1], c)
  {
    var a := activities[i];
    assert activities[..i + 1] == activities[..i] + [a];
    assert a !in activities[..i];
    RetaggedTwice(before, activities[..i], a, c);
    UnnamedMore(activities[..i], a, before);
    AppendedTwice(index, mid, after, c, Unnamed(activities[..i], before), if tags[a].None? then [a] else []);
    assert tags[a] == before[a];
  }

  /** These are the activities that were created. */
  ghost predicate IsSetOf(all: set<Activity>, created: seq<Activity>)
  {
    all == set a | a in created
  }

  lemma WorkspaceIsListed(byWorkspaceID: map<string, seq<Activity>>, created: seq<Activity>, all: set<Activity>,
                          workspaceID: string)
    requires IsSetOf(all, created) && WorkspacesAgree(byWorkspaceID, created) && Distinct(created)
    ensures var activities := Lookup(byWorkspaceID, workspaceID);
            && activities == OfWorkspace(created, workspaceID) && Distinct(activities)
            && forall i :: 0 <= i < |activities| ==> activities[i] in all
  {
    WorkspaceIsDistinct(created, workspaceID);
    var activities := Lookup(byWorkspaceID, workspaceID);
    forall i | 0 <= i < |activities|
      ensures activities[i] in all
    {
      InWorkspace(created, workspaceID, activities[i]);
    }
  }

  class InMemory {
    var byID: map<string, Activity>
    var byWorkspaceID: map<string, seq<Activity>>
    var byChangeID: map<string, seq<Activity>>
    // all activities, in the order in which they were created
    ghost var created: seq<Activity>
    ghost var all: set<Activity>

    /** The three indexes agree: under every id the latest activity with it, the activities of a workspace in the
        order in which they were created, and under a change exactly those that name it. */
    ghost predicate Valid()
      reads this, all
    {
      && IsSetOf(all, created)
      && Distinct(created) && IdsAgree(byID, created)
      && WorkspacesAgree(byWorkspaceID, created) && ChangesAgree(byChangeID, Tags(all))
    }

    constructor ()
      ensures Valid() && created == [] && all == {}
    {
      byID, byWorkspaceID, byChangeID, created, all := map[], map[], map[], [], {};
    }

    method Create(id: string, workspaceID: Option<string>, createdAt: int, changeID: Option<string>) returns (activity: Activity)
      requires Valid()
      modifies this
      ensures Valid() && fresh(activity) && created == old(created) + [activity] && all == old(all) + {activity}
      ensures activity.id == id && activity.workspaceID == workspaceID && activity.createdAt == createdAt
      ensures activity.changeID == changeID
      ensures if changeID.Some? then Appended(old(byChangeID), byChangeID, changeID.value, [activity])
              else byChangeID == old(byChangeID)
    {
      hide WorkspacesAgree, ChangesAgree, OfWorkspace, Tags, Lookup, Latest;
      activity := new Activity(id, workspaceID, createdAt, changeID);
      NewWorkspaceActivity(byWorkspaceID, created, activity);
      NewChangeActivity(byChangeID, all, activity);
      IdsOfMore(byID, created, activity);
      AppendsOne(byChangeID, if changeID.Some? then changeID.value else "", activity);
      hide IdsAgree, Distinct, Appended;
      byID := byID[id := activity];
      if workspaceID.Some? {
        byWorkspaceID := byWorkspaceID[workspaceID.value := Lookup(byWorkspaceID, workspaceID.value) + [activity]];
      }
      if changeID.Some? {
        byChangeID := byChangeID[changeID.value := Lookup(byChangeID, changeID.value) + [activity]];
      }
      created, all := created + [activity], all + {activity};
    }

    /** Gives a change to one activity, if it has none. */
    method NameChange(activity: Activity, changeID: string)
      requires activity in all && ChangesAgree(byChangeID, Tags(all))
      modifies this`byChangeID, activity
      ensures ChangesAgree(byChangeID, Tags(all))
      ensures Appended(old(byChangeID), byChangeID, changeID, if old(Tags(all))[activity].None? then [activity] else [])
      ensures Tags(all) == Retagged(old(Tags(all)), [activity], changeID)
    {
      ghost var tags := Tags(all);
      TagsAre(all, tags);
      RetaggedOne(tags, activity, changeID);
      NothingAppended(byChangeID, changeID);
      hide ChangesAgree, Tags, Retagged, Lookup, Appended;
      if activity.changeID.None? {
        Tagged(byChangeID, tags, activity, changeID);
        activity.SetChange(changeID, all);
        AppendsOne(byChangeID, changeID, activity);
        byChangeID := byChangeID[changeID := Lookup(byChangeID, changeID) + [activity]];
      }
    }

    method NameAll(activities: seq<Activity>, changeID: string)
      requires ChangesAgree(byChangeID, Tags(all)) && Distinct(activities)
      requires forall i :: 0 <= i < |activities| ==> activities[i] in all
      modifies this`byChangeID, all
      ensures ChangesAgree(byChangeID, Tags(all))
      ensures AreNamed(old(Tags(all)), Tags(all), old(byChangeID), byChangeID, activities, changeID)
    {
      ghost var before := Tags(all);
      NothingNamed(before, byChangeID, changeID);
      hide ChangesAgree, Distinct, Tags, AreNamed;
      for i := 0 to |activities|
        invariant ChangesAgree(byChangeID, Tags(all))
        invariant AreNamed(before, Tags(all), old(byChangeID), byChangeID, activities[..i], changeID)
      {
        ghost var tags, index := Tags(all), byChangeID;
        TagsAre(all, tags);
        NameChange(activities[i], changeID);
        OneMoreNamed(before, tags, Tags(all), old(byChangeID), index, byChangeID, activities, i, changeID);
      }
      assert activities[..|activities|] == activities;
    }

    /** Gives a change to the activities of the workspace that have none; no activity that has
        one loses or changes it. They are listed under it behind those that were, in the order in which
        they were created. */
    method SetChangeID(workspaceID: string, changeID: string)
      requires Valid()
      modifies this`byChangeID, all
      ensures Valid() && Tags(all) == Retagged(old(Tags(all)), OfWorkspace(created, workspaceID), changeID)
      ensures Appended(old(byChangeID), byChangeID, changeID, Unnamed(OfWorkspace(created, workspaceID), old(Tags(all))))
    {
      WorkspaceIsListed(byWorkspaceID, created, all, workspaceID);
      var activities := Lookup(byWorkspaceID, workspaceID);
      hide IsSetOf, WorkspacesAgree, IdsAgree, ChangesAgree, OfWorkspace, Lookup, Distinct, Tags, Retagged, Appended, Unnamed;
      NameAll(activities, changeID);
    }

    /** The latest activity with an id. */
    method Get(id: string) returns (activity: Option<Activity>)
      requires Valid()
      ensures activity == Latest(created, id)
    {
      return if id in byID then Some(byID[id]) else None;
    }

    function Limited(activities: seq<Activity>, limit: nat): (r: seq<Activity>)
      ensures r <= activities && |r| == if limit < |activities| then limit else |activities|
    {
      if |activities| > limit then activities[..limit] else activities
    }

    method ListByWorkspaceID(workspaceID: string, limit: nat) returns (r: seq<Activity>)
      requires Valid()
      ensures r <= OfWorkspace(created, workspaceID)
      ensures |r| == limit || r == OfWorkspace(created, workspaceID)
      ensures forall a :: a in r ==> a in created && a.workspaceID == Some(workspaceID)
      ensures forall i, j :: 0 <= i < j < |r| ==> Before(created, r[i], r[j])
      ensures |r| < limit ==> forall a :: a in created && a.workspaceID == Some(workspaceID) ==> a in r
    {
      forall a: Activity
        ensures a in OfWorkspace(created, workspaceID) <==> a in created && a.workspaceID == Some(workspaceID)
      {
        InWorkspace(created, workspaceID, a);
      }
      forall i, j | 0 <= i < j < |OfWorkspace(created, workspaceID)|
        ensures Before(created, OfWorkspace(created, workspaceID)[i], OfWorkspace(created, workspaceID)[j])
      {
        WorkspaceIsInOrder(created, workspaceID, i, j);
      }
      hide Before, OfWorkspace, IdsAgree, ChangesAgree, Distinct;
      r := Limited(Lookup(byWorkspaceID, workspaceID), limit);
    }

    method ListByChangeID(changeID: string, limit: nat) returns (r: seq<Activity>)
      requires Valid()
      ensures Distinct(r) && r <= Lookup(byChangeID, changeID)
      ensures |r| == limit || r == Lookup(byChangeID, changeID)
      ensures forall a :: a in r ==> a in all && a.changeID == Some(changeID)
      ensures |r| < limit ==> forall a :: a in all && a.changeID == Some(changeID) ==> a in r
    {
      assert AllNamed(Lookup(byChangeID, changeID), changeID, Tags(all));
      TagsAre(all, Tags(all));
      r := Limited(Lookup(byChangeID, changeID), limit);
    }
  }
}
