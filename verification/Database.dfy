/** `dbconn.c`: the friends and groups tables and what is inserted into, deleted from and selected from them. */
module Database {
  import opened Bytes
  import opened Server
  import opened Fanout

  /** A row is kept once: an insert of one that is there fails, and so does one of a group row for an unknown user. */
  class Tables {
    var friends: set<(u32, u32)>
    var groups: set<(u32, u32)>
    var accounts: set<u32>

    constructor ()
      ensures friends == {} && groups == {} && accounts == {}
    {
      friends, groups, accounts := {}, {}, {};
    }

    method InsertFriend(a: u32, b: u32) returns (ok: bool)
      modifies this`friends
      ensures ok <==> (a, b) !in old(friends)
      ensures friends == old(friends) + {(a, b)}
    {
      ok := (a, b) !in friends;
      friends := friends + {(a, b)};
    }

    /** `db_AddFriends` */
    method AddFriends(a: u32, b: u32) returns (result: int)
      modifies this`friends
      ensures (friends, result) == Server.AddFriends(old(friends), a, b)
    {
      var ok := InsertFriend(a, b);
      if !ok {
        assert friends == old(friends);
        return -1;
      }
      ok := InsertFriend(b, a);
      if !ok {
        assert friends == old(friends) + {(a, b)};
        return -1;
      }
      return 0;
    }

    /** `db_DeleteFriend` */
    method DeleteFriend(a: u32, b: u32)
      modifies this`friends
      ensures friends == old(friends) - {(a, b), (b, a)}
    {
      friends := friends - {(a, b)};
      friends := friends - {(b, a)};
    }

    /** `db_CreateGroup`: a failing insert is logged and passed over. */
    method CreateGroup(gid: u32, users: seq<u32>)
      modifies this`groups
      ensures groups == old(groups) + Rows(accounts, gid, users)
    {
      var i := 0;
      while i < |users|
        invariant 0 <= i <= |users|
        invariant groups == old(groups) + Rows(accounts, gid, users[..i])
      {
        RowsNext(accounts, gid, users, i);
        if users[i] in accounts && (gid, users[i]) !in groups {
          groups := groups + {(gid, users[i])};
        }
        i := i + 1;
      }
      assert users[..i] == users;
    }

    /** The rows of a selection, one result after another in an order the database chooses. */
    method Select(rows: set<u32>) returns (users: seq<u32>)
      ensures NoRepeats(users) && Listed(users) == rows
    {
      users := [];
      var left := rows;
      while left != {}
        invariant NoRepeats(users) && Listed(users) + left == rows && left == rows - Listed(users)
        decreases left
      {
        var u :| u in left;
        ListedNext(users, u);
        users, left := users + [u], left - {u};
      }
    }

    /** `db_GetGroup` */
    method GetGroup(gid: u32) returns (users: seq<u32>)
      ensures NoRepeats(users) && Listed(users) == Members(groups, gid)
    {
      users := Select(Members(groups, gid));
    }

    /** `db_QueryFriends` */
    method QueryFriends(uid: u32) returns (users: seq<u32>)
      ensures NoRepeats(users) && Listed(users) == FriendsOf(friends, uid)
      ensures forall u :: u in users <==> (uid, u) in friends
    {
      users := Select(FriendsOf(friends, uid));
      forall u
        ensures u in users <==> (uid, u) in friends
      {
        assert u in users <==> u in Listed(users);
        FriendIff(friends, uid, u);
      }
    }
  }

  lemma FriendIff(friends: set<(u32, u32)>, uid: u32, u: u32)
    ensures u in FriendsOf(friends, uid) <==> (uid, u) in friends
  {}

  lemma RowsNext(accounts: set<u32>, gid: u32, users: seq<u32>, i: nat)
    requires i < |users|
    ensures Rows(accounts, gid, users[..i + 1])
      == Rows(accounts, gid, users[..i]) + (if users[i] in accounts then {(gid, users[i])} else {})
  {}

  lemma ListedNext(users: seq<u32>, u: u32)
    requires NoRepeats(users) && u !in Listed(users)
    ensures NoRepeats(users + [u]) && Listed(users + [u]) == Listed(users) + {u}
  {}
}
