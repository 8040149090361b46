/**
 * services/db.ts: the record store. Browser storage holds two separate keys,
 * `tps_users` and `tps_activities`; each slot below is the array stored under
 * one key, or `None` while the key has never been written. Every mutator
 * reads its array, rebuilds it, and writes the whole array back.
 */
module Store {
  import opened Wrappers
  import opened Seqs
  import opened Types

  /** `u => u.id === id` */
  function UserIdIs(id: string): User -> bool {
    (u: User) => u.id == id
  }

  /** `a => a.id === id` */
  function ActivityIdIs(id: string): Activity -> bool {
    (a: Activity) => a.id == id
  }

  /** `a => a.id !== id` */
  function ActivityIdIsNot(id: string): Activity -> bool {
    (a: Activity) => a.id != id
  }

  /** `users.map(u => u.id === v.id ? v : u)` */
  function ReplaceUser(users: seq<User>, v: User): (r: seq<User>)
    ensures |r| == |users|
    ensures forall i :: 0 <= i < |users| ==> r[i] == if users[i].id == v.id then v else users[i]
  {
    ReplaceWhere(users, UserIdIs(v.id), v)
  }

  /** `activities.map(a => a.id === v.id ? v : a)` */
  function ReplaceActivity(acts: seq<Activity>, v: Activity): (r: seq<Activity>)
    ensures |r| == |acts|
    ensures forall i :: 0 <= i < |acts| ==> r[i] == if acts[i].id == v.id then v else acts[i]
  {
    ReplaceWhere(acts, ActivityIdIs(v.id), v)
  }

  /** `activities.filter(a => a.id !== id)` */
  function RemoveActivity(acts: seq<Activity>, id: string): (r: seq<Activity>)
    ensures forall i :: 0 <= i < |r| ==> r[i].id != id && r[i] in acts
    ensures forall i :: 0 <= i < |acts| && acts[i].id != id ==> acts[i] in r
    ensures SubsequenceOf(r, acts)
  {
    FilterIsSubsequence(acts, ActivityIdIsNot(id));
    Filter(acts, ActivityIdIsNot(id))
  }

  /** Updating a user whose id is not stored changes nothing. */
  lemma ReplaceUserAbsent(users: seq<User>, v: User)
    requires forall i :: 0 <= i < |users| ==> users[i].id != v.id
    ensures ReplaceUser(users, v) == users
  {
    ReplaceNoMatch(users, UserIdIs(v.id), v);
  }

  /** Updating an activity whose id is not stored changes nothing. */
  lemma ReplaceActivityAbsent(acts: seq<Activity>, v: Activity)
    requires forall i :: 0 <= i < |acts| ==> acts[i].id != v.id
    ensures ReplaceActivity(acts, v) == acts
  {
    ReplaceNoMatch(acts, ActivityIdIs(v.id), v);
  }

  /** Applying the same activity update twice is applying it once. */
  lemma ReplaceActivityIdempotent(acts: seq<Activity>, v: Activity)
    ensures ReplaceActivity(ReplaceActivity(acts, v), v) == ReplaceActivity(acts, v)
  {
    ReplaceIdempotent(acts, ActivityIdIs(v.id), v);
  }

  /** Deleting an id that is not stored changes nothing. */
  lemma RemoveActivityAbsent(acts: seq<Activity>, id: string)
    requires forall i :: 0 <= i < |acts| ==> acts[i].id != id
    ensures RemoveActivity(acts, id) == acts
  {
    FilterAllPass(acts, ActivityIdIsNot(id));
  }

  /** Deleting the same id twice is deleting it once. */
  lemma RemoveActivityIdempotent(acts: seq<Activity>, id: string)
    ensures RemoveActivity(RemoveActivity(acts, id), id) == RemoveActivity(acts, id)
  {
    FilterIdempotent(acts, ActivityIdIsNot(id));
  }

  /** Deleting keeps every copy of each activity with another id and drops the rest. */
  lemma RemoveActivityCount(acts: seq<Activity>, id: string, a: Activity)
    ensures multiset(RemoveActivity(acts, id))[a] == if a.id != id then multiset(acts)[a] else 0
  {
    FilterCount(acts, ActivityIdIsNot(id), a);
  }

  class Db {
    /** The array stored under `tps_users`, `None` when the key is missing. */
    var usersSlot: Option<seq<User>>
    /** The array stored under `tps_activities`, `None` when the key is missing. */
    var activitiesSlot: Option<seq<Activity>>

    /** Storage in which neither key has been written. */
    constructor ()
      ensures usersSlot == None && activitiesSlot == None
    {
      usersSlot := None;
      activitiesSlot := None;
    }

    /** The users as `getUsers` reads them: a missing key reads as `[]`. */
    ghost function Users(): seq<User>
      reads this
    {
      usersSlot.GetOr([])
    }

    /** The activities as `getActivities` reads them: a missing key reads as `[]`. */
    ghost function Activities(): seq<Activity>
      reads this
    {
      activitiesSlot.GetOr([])
    }

    method GetUsers() returns (users: seq<User>)
      ensures users == Users()
      ensures usersSlot == None ==> users == []
    {
      users := if usersSlot.Some? then usersSlot.value else [];
    }

    method GetActivities() returns (acts: seq<Activity>)
      ensures acts == Activities()
      ensures activitiesSlot == None ==> acts == []
    {
      acts := if activitiesSlot.Some? then activitiesSlot.value else [];
    }

    /** Appends, with no check for a duplicate id or email. */
    method SaveUser(user: User)
      modifies this
      ensures usersSlot == Some(old(Users()) + [user])
      ensures activitiesSlot == old(activitiesSlot)
    {
      var users := GetUsers();
      usersSlot := Some(users + [user]);
    }

    method UpdateUser(updated: User)
      modifies this
      ensures usersSlot == Some(ReplaceUser(old(Users()), updated))
      ensures activitiesSlot == old(activitiesSlot)
    {
      var users := GetUsers();
      usersSlot := Some(ReplaceUser(users, updated));
    }

    method SaveActivity(activity: Activity)
      modifies this
      ensures activitiesSlot == Some(old(Activities()) + [activity])
      ensures usersSlot == old(usersSlot)
    {
      var acts := GetActivities();
      activitiesSlot := Some(acts + [activity]);
    }

    method DeleteActivity(id: string)
      modifies this
      ensures activitiesSlot == Some(RemoveActivity(old(Activities()), id))
      ensures usersSlot == old(usersSlot)
    {
      var acts := GetActivities();
      activitiesSlot := Some(RemoveActivity(acts, id));
    }

    method UpdateActivity(updated: Activity)
      modifies this
      ensures activitiesSlot == Some(ReplaceActivity(old(Activities()), updated))
      ensures usersSlot == old(usersSlot)
    {
      var acts := GetActivities();
      activitiesSlot := Some(ReplaceActivity(acts, updated));
    }
  }
}
