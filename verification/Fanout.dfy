/** Group notifications: who gets one, and how often. */
module Fanout {
  import opened Bytes
  import opened Push
  import opened Server

  function Count(users: seq<u32>, uid: u32): nat {
    if users == [] then 0 else (if users[0] == uid then 1 else 0) + Count(users[1..], uid)
  }

  ghost predicate NoRepeats(users: seq<u32>) {
    forall i, j :: 0 <= i < j < |users| ==> users[i] != users[j]
  }

  function Listed(users: seq<u32>): set<u32> { set u | u in users }

  /** An entry told the same thing `k` times. */
  function Times(e: Entry, n: Notice, k: nat): Entry {
    if k == 0 then e else Told(Times(e, n, k - 1), n)
  }

  lemma {:induction false} TimesFront(e: Entry, n: Notice, k: nat)
    ensures Times(Told(e, n), n, k) == Told(Times(e, n, k), n)
  {
    if k == 0 {
    } else {
      TimesFront(e, n, k - 1);
    }
  }

  /**
    Notifying each user of a list tells everyone online exactly as often as the list names them, and the sender
    never.
   */
  lemma {:induction false} NotifyEachExactly(online: seq<Entry>, users: seq<u32>, from: u32, n: Notice, i: nat)
    requires i < |online|
    ensures |NotifyEach(online, users, from, n)| == |online|
    ensures NotifyEach(online, users, from, n)[i] ==
      Times(online[i], n, if online[i].uid == from then 0 else Count(users, online[i].uid))
    decreases |users|
  {
    if users == [] {
    } else {
      var next := if users[0] == from then online else Deliver(online, {users[0]}, n);
      NotifyEachExactly(next, users[1..], from, n, i);
      TimesFront(online[i], n, Count(users[1..], online[i].uid));
    }
  }

  lemma {:induction false} CountNoRepeats(users: seq<u32>, uid: u32)
    requires NoRepeats(users)
    ensures Count(users, uid) == if uid in users then 1 else 0
  {
    if users == [] {
    } else {
      CountNoRepeats(users[1..], uid);
    }
  }

  /** Over rows without repeats, in whatever order, everyone listed but the sender is told once. */
  lemma NotifyEachOnce(online: seq<Entry>, rows: seq<u32>, from: u32, n: Notice)
    requires NoRepeats(rows)
    ensures NotifyEach(online, rows, from, n) == Deliver(online, Listed(rows) - {from}, n)
  {
    var told := Deliver(online, Listed(rows) - {from}, n);
    NotifyEachLength(online, rows, from, n);
    forall i | 0 <= i < |online|
      ensures NotifyEach(online, rows, from, n)[i] == told[i]
    {
      NotifyEachExactly(online, rows, from, n, i);
      CountNoRepeats(rows, online[i].uid);
      assert Times(online[i], n, 0) == online[i] && Times(online[i], n, 1) == Told(online[i], n);
    }
  }

  lemma {:induction false} NotifyEachLength(online: seq<Entry>, users: seq<u32>, from: u32, n: Notice)
    ensures |NotifyEach(online, users, from, n)| == |online|
    decreases |users|
  {
    if users == [] {
    } else {
      NotifyEachLength(if users[0] == from then online else Deliver(online, {users[0]}, n), users[1..], from, n);
    }
  }

  lemma MemberIff(groups: set<(u32, u32)>, gid: u32, uid: u32)
    ensures uid in Members(groups, gid) <==> (gid, uid) in groups
  {}

  /**
    Creating a group adds the listed users that exist, however often each is listed, and keeps every other group
    as it was.
   */
  lemma CreateGroupMembers(w: World, me: u32, gid: u32, count: u32, users: seq<u32>, other: u32)
    requires count <= 10
    ensures
      var after := Serve(w, me, CreateGroup(gid, count, Some(users))).0.groups;
      Members(after, other) == Members(w.groups, other) + (if other == gid then Listed(users) * w.accounts else {})
  {
    var after := Serve(w, me, CreateGroup(gid, count, Some(users))).0.groups;
    forall u
      ensures u in Members(after, other) <==>
        u in Members(w.groups, other) || (other == gid && u in users && u in w.accounts)
    {
      MemberIff(after, other, u);
      MemberIff(w.groups, other, u);
    }
  }
}
