/** `db_InsertUser` and `db_LoginCheck`: the password as it is stored and as it is compared. */
module Accounts {
  import opened Bytes
  import opened Md5
  import opened Server

  /** md5(md5(password)) as text. */
  function StoredHash(password: seq<byte>): (s: seq<byte>)
    ensures |s| == 32
  {
    Hex(Md5Digest(Hex(Md5Digest(password))))
  }

  /** `db_LoginCheck` against one row. */
  predicate Accepts(stored: seq<byte>, password: seq<byte>) {
    |password| <= 32 && StoredHash(password) == stored
  }

  /**
    The row stored for one password lets in exactly the passwords of at most 32 bytes with the same double
    digest; so a registered password itself works if and only if it has at most 32 bytes.
   */
  lemma LoginIff(registered: seq<byte>, tried: seq<byte>)
    ensures Accepts(StoredHash(registered), tried) <==>
      |tried| <= 32 && Md5Digest(Hex(Md5Digest(tried))) == Md5Digest(Hex(Md5Digest(registered)))
    ensures Accepts(StoredHash(registered), registered) <==> |registered| <= 32
  {
    hide Md5Digest;
    var d, e := Md5Digest(Hex(Md5Digest(tried))), Md5Digest(Hex(Md5Digest(registered)));
    if Hex(d) == Hex(e) {
      HexInjective(d, e);
    }
  }

  datatype User = User(name: seq<byte>, passwd: seq<byte>)

  /** The user table; ids are handed out in increasing order. */
  class UserTable {
    var rows: map<u32, User>
    var nextId: u32

    /** No id from `nextId` on is taken. */
    ghost predicate Valid()
      reads this
    {
      forall id :: id in rows ==> id < nextId
    }

    constructor ()
      ensures Valid() && rows == map[] && nextId == 1
    {
      rows, nextId := map[], 1;
    }

    method Hash(password: seq<byte>) returns (text: seq<byte>)
      requires |password| < LengthLimit(0)
      ensures text == StoredHash(password)
    {
      hide Md5Digest;
      var once := Md5Text(password);
      assert password[..|password| % WORD] == password;
      text := Md5Text(once);
      assert once[..|once| % WORD] == once;
    }

    /** `db_InsertUser`; `stored` is whether the insert statement succeeded. */
    method InsertUser(name: seq<byte>, password: seq<byte>, stored: bool) returns (result: int)
      requires Valid() && |password| < LengthLimit(0) && nextId < WORD - 1
      modifies this
      ensures Valid()
      ensures result == if |name| <= 25 && Alphanumeric(name) && stored then 0 else -1
      ensures result == 0 ==>
        rows == old(rows)[old(nextId) := User(name, StoredHash(password))] && nextId == old(nextId) + 1
      ensures result != 0 ==> rows == old(rows) && nextId == old(nextId)
    {
      hide StoredHash;
      if |name| > 25 || !Alphanumeric(name) {
        return -1;
      }
      var hash := Hash(password);
      if !stored {
        return -1;
      }
      rows := rows[nextId := User(name, hash)];
      nextId := nextId + 1;
      return 0;
    }

    /** `db_LoginCheck` */
    method LoginCheck(uid: u32, password: seq<byte>) returns (result: int)
      ensures result == if uid in rows && Accepts(rows[uid].passwd, password) then 0 else -1
    {
      hide StoredHash;
      if |password| > 32 {
        return -1;
      }
      var hash := Hash(password);
      return if uid in rows && rows[uid].passwd == hash then 0 else -1;
    }
  }

  /** Registering and then logging in with the id that was given out. */
  method RegisterThenLogin(table: UserTable, name: seq<byte>, password: seq<byte>) returns (registered: int, login: int)
    requires table.Valid() && |password| < LengthLimit(0) && table.nextId < WORD - 1
    modifies table
    ensures registered == 0 <==> |name| <= 25 && Alphanumeric(name)
    ensures registered == 0 ==> (login == 0 <==> |password| <= 32)
  {
    hide Accepts, StoredHash;
    var id := table.nextId;
    registered := table.InsertUser(name, password, true);
    login := table.LoginCheck(id, password);
    LoginIff(password, password);
  }
}
