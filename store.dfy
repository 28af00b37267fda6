/**
 * The SQLite chat store of processing/db.py: a `users` table (AUTOINCREMENT
 * id, UNIQUE handle `ssn`) and a `messages` table (AUTOINCREMENT id, a
 * foreign key `user_id`, an ISO timestamp, the content and a nullable
 * integer `type`).
 *
 * The tables are values (`Tables`) with pure operations on them, which the
 * scripts' specifications fold over; the connection is the class `Database`,
 * whose methods update its fields as the SQL statements update the file.
 * Rows are kept in rowid order, which is the order an unordered SELECT
 * returns them in.
 */
module Store {
  import opened Common
  import opened Calendar

  datatype User = User(id: int, ssn: string)
  datatype Message = Message(id: int, userId: int, timestamp: string, content: string, msgType: Option<int>)

  /** The whole file: both tables and the two AUTOINCREMENT counters (the next id to hand out). */
  datatype Tables = Tables(users: seq<User>, messages: seq<Message>, nextUserId: int, nextMessageId: int)

  /** A row of `SELECT id, content FROM messages WHERE type IS NULL`. */
  datatype Untagged = Untagged(id: int, content: string)

  /** A row of `SELECT id, content, type FROM messages`. */
  datatype Listed = Listed(id: int, content: string, msgType: Option<int>)

  // ---------------------------------------------------------------------------
  // Integrity of the tables

  /** Python ints outside this range cannot be bound as SQLite parameters (OverflowError). */
  const Int64Min: int := -0x8000_0000_0000_0000
  const Int64Max: int := 0x7FFF_FFFF_FFFF_FFFF

  predicate FitsInt64(n: int) { Int64Min <= n <= Int64Max }

  predicate HasUserId(users: seq<User>, id: int) {
    exists i :: 0 <= i < |users| && users[i].id == id
  }

  predicate HasMessageId(messages: seq<Message>, id: int) {
    exists k :: 0 <= k < |messages| && messages[k].id == id
  }

  /** AUTOINCREMENT ids: positive, below the counter, increasing in rowid order. */
  predicate UserIdsOrdered(users: seq<User>, next: int) {
    (forall i :: 0 <= i < |users| ==> 1 <= users[i].id < next) &&
    (forall i, j :: 0 <= i < j < |users| ==> users[i].id < users[j].id)
  }

  /** `ssn TEXT UNIQUE NOT NULL` (processing/db.py:13). */
  predicate UniqueHandles(users: seq<User>) {
    forall i, j :: 0 <= i < j < |users| ==> users[i].ssn != users[j].ssn
  }

  predicate MessageIdsOrdered(messages: seq<Message>, next: int) {
    (forall k :: 0 <= k < |messages| ==> 1 <= messages[k].id < next) &&
    (forall k, l :: 0 <= k < l < |messages| ==> messages[k].id < messages[l].id)
  }

  /** `FOREIGN KEY (user_id) REFERENCES users(id)`, enforced under `PRAGMA foreign_keys = ON`. */
  predicate AuthorsExist(messages: seq<Message>, users: seq<User>) {
    forall k :: 0 <= k < |messages| ==> HasUserId(users, messages[k].userId)
  }

  predicate WellFormed(t: Tables) {
    1 <= t.nextUserId && 1 <= t.nextMessageId &&
    UserIdsOrdered(t.users, t.nextUserId) && UniqueHandles(t.users) &&
    MessageIdsOrdered(t.messages, t.nextMessageId) && AuthorsExist(t.messages, t.users)
  }

  /** The tables `setup_database` creates in a file that has none. */
  const EmptyTables := Tables([], [], 1, 1)

  // ---------------------------------------------------------------------------
  // Users: INSERT OR IGNORE, then SELECT id

  /** Position of the user holding `ssn`, if any. */
  function HandleIndex(users: seq<User>, ssn: string): (r: Option<nat>)
    ensures r.Some? ==> r.value < |users| && users[r.value].ssn == ssn
    ensures r.None? ==> forall i :: 0 <= i < |users| ==> users[i].ssn != ssn
  {
    if users == [] then None
    else if users[0].ssn == ssn then Some(0)
    else match HandleIndex(users[1..], ssn)
      case None => None
      case Some(i) => Some(i + 1)
  }

  datatype Registration = Registration(users: seq<User>, nextUserId: int, id: int)

  /** The user table and id after `INSERT OR IGNORE INTO users (ssn)` and `SELECT id ... WHERE ssn = ?`. */
  function Register(users: seq<User>, next: int, ssn: string): (r: Registration)
    ensures HandleIndex(users, ssn).Some? ==>
      r == Registration(users, next, users[HandleIndex(users, ssn).value].id)
    ensures HandleIndex(users, ssn).None? ==>
      r == Registration(users + [User(next, ssn)], next + 1, next)
  {
    match HandleIndex(users, ssn)
    case Some(i) => Registration(users, next, users[i].id)
    case None => Registration(users + [User(next, ssn)], next + 1, next)
  }

  /**
   * Get-or-create: an existing handle keeps its id and the table is unchanged;
   * a new handle gets exactly one new row with a fresh id. Either way the
   * table stays well formed and the returned id is the handle's
   * (processing/db.py:100-103).
   */
  lemma RegisterSound(t: Tables, ssn: string)
    requires WellFormed(t)
    ensures var r := Register(t.users, t.nextUserId, ssn);
      WellFormed(Tables(r.users, t.messages, r.nextUserId, t.nextMessageId)) &&
      HandleIndex(r.users, ssn).Some? && r.users[HandleIndex(r.users, ssn).value].id == r.id &&
      (HasHandle(t.users, ssn) ==> r.users == t.users) &&
      (!HasHandle(t.users, ssn) ==> |r.users| == |t.users| + 1 && !HasUserId(t.users, r.id))
  {
    var r := Register(t.users, t.nextUserId, ssn);
    if HandleIndex(t.users, ssn).None? {
      var u := r.users;
      assert u[|t.users|] == User(t.nextUserId, ssn);
      assert UniqueHandles(u);
      forall k | 0 <= k < |t.messages| ensures HasUserId(u, t.messages[k].userId) {
        var i :| 0 <= i < |t.users| && t.users[i].id == t.messages[k].userId;
        assert u[i] == t.users[i];
      }
      HandleIndexUnique(u, |t.users|);
    } else {
      HandleIndexUnique(t.users, HandleIndex(t.users, ssn).value);
    }
  }

  predicate HasHandle(users: seq<User>, ssn: string) {
    exists i :: 0 <= i < |users| && users[i].ssn == ssn
  }

  /** Under UNIQUE, the handle of row i is found at row i. */
  lemma HandleIndexUnique(users: seq<User>, i: nat)
    requires UniqueHandles(users) && i < |users|
    ensures HandleIndex(users, users[i].ssn) == Some(i)
  {
    var r := HandleIndex(users, users[i].ssn);
    assert r.Some?;
    SameHandleSameRow(users, r.value, i);
  }

  lemma SameHandleSameRow(users: seq<User>, i: nat, j: nat)
    requires UniqueHandles(users) && i < |users| && j < |users|
    requires users[i].ssn == users[j].ssn
    ensures i == j
  {
  }

  /** Registering the same handle twice yields the same id and adds no second row. */
  lemma RegisterTwice(t: Tables, ssn: string)
    requires WellFormed(t)
    ensures var r1 := Register(t.users, t.nextUserId, ssn);
      var r2 := Register(r1.users, r1.nextUserId, ssn);
      r2 == r1
  {
    RegisterSound(t, ssn);
  }

  // ---------------------------------------------------------------------------
  // store_message

  datatype StoreOutcome = BadTimestamp | Stored(userId: int, messageId: int)
  datatype StoreResult = StoreResult(tables: Tables, outcome: StoreOutcome)

  /**
   * `store_message(conn, ssn, raw_timestamp, content, msg_type)`
   * (processing/db.py:78-116): a timestamp strptime refuses stores nothing;
   * otherwise the author is registered and one message row is appended.
   */
  function StoreInto(t: Tables, ssn: string, raw: string, content: string, msgType: Option<int>): (r: StoreResult)
    requires WellFormed(t)
    ensures WellFormed(r.tables)
    ensures r.outcome.BadTimestamp? <==> ConvertTimestamp(raw).None?
    ensures r.outcome.BadTimestamp? ==> r.tables == t
  {
    match ConvertTimestamp(raw)
    case None => StoreResult(t, BadTimestamp)
    case Some(iso) =>
      RegisterSound(t, ssn);
      var reg := Register(t.users, t.nextUserId, ssn);
      var m := Message(t.nextMessageId, reg.id, iso, content, msgType);
      var t2 := Tables(reg.users, t.messages + [m], reg.nextUserId, t.nextMessageId + 1);
      AppendMessageWellFormed(Tables(reg.users, t.messages, reg.nextUserId, t.nextMessageId), m);
      StoreResult(t2, Stored(reg.id, t.nextMessageId))
  }

  /**
   * An accepted timestamp stores one message: the author's handle resolves to
   * the returned user id (the table unchanged for a known handle, one row
   * longer for a new one), and exactly one row with a fresh id, that author,
   * the converted timestamp, the content and the type is appended.
   */
  lemma StoreIntoAppends(t: Tables, ssn: string, raw: string, content: string, msgType: Option<int>)
    requires WellFormed(t) && ConvertTimestamp(raw).Some?
    ensures var r := StoreInto(t, ssn, raw, content, msgType);
      var u := r.tables.users;
      r.outcome.Stored? &&
      HandleIndex(u, ssn).Some? && u[HandleIndex(u, ssn).value].id == r.outcome.userId &&
      (HasHandle(t.users, ssn) ==> u == t.users) &&
      (!HasHandle(t.users, ssn) ==> |u| == |t.users| + 1) &&
      r.tables.messages == t.messages +
        [Message(r.outcome.messageId, r.outcome.userId, ConvertTimestamp(raw).value, content, msgType)] &&
      !HasMessageId(t.messages, r.outcome.messageId) &&
      r.tables.nextMessageId == t.nextMessageId + 1
  {
    RegisterSound(t, ssn);
    var reg := Register(t.users, t.nextUserId, ssn);
    AppendMessageWellFormed(Tables(reg.users, t.messages, reg.nextUserId, t.nextMessageId),
      Message(t.nextMessageId, reg.id, ConvertTimestamp(raw).value, content, msgType));
  }

  /** The accepted case of `StoreInto` as the connection performs it: get-or-create, then one INSERT. */
  lemma StoreStep(t: Tables, ssn: string, raw: string, content: string, msgType: Option<int>)
    requires WellFormed(t) && ConvertTimestamp(raw).Some?
    ensures var reg := Register(t.users, t.nextUserId, ssn);
      var row := Message(t.nextMessageId, reg.id, ConvertTimestamp(raw).value, content, msgType);
      StoreInto(t, ssn, raw, content, msgType) ==
        StoreResult(Tables(reg.users, t.messages + [row], reg.nextUserId, t.nextMessageId + 1), Stored(reg.id, t.nextMessageId))
  {
  }

  lemma AppendMessageWellFormed(t: Tables, m: Message)
    requires WellFormed(t) && m.id == t.nextMessageId && HasUserId(t.users, m.userId)
    ensures WellFormed(Tables(t.users, t.messages + [m], t.nextUserId, t.nextMessageId + 1))
    ensures !HasMessageId(t.messages, m.id)
  {
    var ms := t.messages + [m];
    assert forall k :: 0 <= k < |t.messages| ==> ms[k] == t.messages[k];
    assert ms[|t.messages|] == m;
  }

  /** A refused timestamp (31/04, 29/02 of a common year, hour 24, …) adds neither a user nor a message (processing/db.py:93-95). */
  lemma RefusedTimestampStoresNothing(t: Tables, ssn: string, raw: string, content: string, msgType: Option<int>)
    requires WellFormed(t) && ConvertTimestamp(raw).None?
    ensures StoreInto(t, ssn, raw, content, msgType).tables == t
  {
  }

  // ---------------------------------------------------------------------------
  // update_message_type

  /** Every row with id `id` gets type `newType`; all other rows and fields are untouched. */
  function SetType(messages: seq<Message>, id: int, newType: int): (r: seq<Message>)
    ensures |r| == |messages|
    ensures forall k :: 0 <= k < |r| ==>
      r[k] == if messages[k].id == id then messages[k].(msgType := Some(newType)) else messages[k]
  {
    if messages == [] then []
    else
      var head := if messages[0].id == id then messages[0].(msgType := Some(newType)) else messages[0];
      [head] + SetType(messages[1..], id, newType)
  }

  /** With no row of that id, the UPDATE changes nothing (processing/db.py:70-71). */
  lemma SetTypeMissing(messages: seq<Message>, id: int, newType: int)
    requires !HasMessageId(messages, id)
    ensures SetType(messages, id, newType) == messages
  {
    var r := SetType(messages, id, newType);
    assert forall k :: 0 <= k < |r| ==> r[k] == messages[k];
  }

  /** The last update of an id wins. */
  lemma SetTypeTwice(messages: seq<Message>, id: int, a: int, b: int)
    ensures SetType(SetType(messages, id, a), id, b) == SetType(messages, id, b)
  {
  }

  datatype UpdateStatus = Updated | NoSuchMessage | Overflow

  function UpdateStatusOf(t: Tables, id: int, newType: int): (s: UpdateStatus)
    ensures s == Overflow <==> !(FitsInt64(id) && FitsInt64(newType))
    ensures s == NoSuchMessage <==> FitsInt64(id) && FitsInt64(newType) && !HasMessageId(t.messages, id)
  {
    if !(FitsInt64(id) && FitsInt64(newType)) then Overflow
    else if HasMessageId(t.messages, id) then Updated
    else NoSuchMessage
  }

  /**
   * `update_message_type(conn, message_id, new_type)` (processing/db.py:57-76):
   * only the type of the row with that id changes, a missing id changes
   * nothing, and an integer SQLite cannot bind changes nothing.
   */
  function UpdateType(t: Tables, id: int, newType: int): (r: Tables)
    ensures r.users == t.users && r.nextUserId == t.nextUserId && r.nextMessageId == t.nextMessageId
    ensures UpdateStatusOf(t, id, newType) != Updated ==> r == t
    ensures UpdateStatusOf(t, id, newType) == Updated ==> r.messages == SetType(t.messages, id, newType)
    ensures |r.messages| == |t.messages|
    ensures forall k :: 0 <= k < |t.messages| ==>
      r.messages[k] == if UpdateStatusOf(t, id, newType) == Updated && t.messages[k].id == id
                       then t.messages[k].(msgType := Some(newType)) else t.messages[k]
  {
    if UpdateStatusOf(t, id, newType) == Updated then
      Tables(t.users, SetType(t.messages, id, newType), t.nextUserId, t.nextMessageId)
    else t
  }

  /** Setting a type keeps every id and author, so the tables stay well formed. */
  lemma UpdateTypeWellFormed(t: Tables, id: int, newType: int)
    requires WellFormed(t)
    ensures WellFormed(UpdateType(t, id, newType))
  {
  }

  // ---------------------------------------------------------------------------
  // Bounded SELECTs

  /** SQLite's `LIMIT n`: a negative limit means no limit. */
  function Limited<T>(rows: seq<T>, limit: int): (r: seq<T>)
    ensures |r| <= |rows| && r == rows[..|r|]
    ensures limit >= 0 ==> |r| == if limit < |rows| then limit else |rows|
    ensures limit < 0 ==> r == rows
  {
    if limit < 0 then rows else Take(rows, limit)
  }

  /** `row` is the (id, content) of some message whose type is NULL. */
  predicate FromNullMessage(messages: seq<Message>, row: Untagged) {
    exists k :: 0 <= k < |messages| && messages[k].msgType.None? &&
      row == Untagged(messages[k].id, messages[k].content)
  }

  /** All rows of `... WHERE type IS NULL`, in rowid order. */
  function UntaggedRows(messages: seq<Message>): (r: seq<Untagged>)
    ensures |r| <= |messages|
    ensures forall j :: 0 <= j < |r| ==> FromNullMessage(messages, r[j])
  {
    if messages == [] then []
    else
      var rest := UntaggedRows(messages[1..]);
      assert forall j :: 0 <= j < |rest| ==> FromNullMessage(messages, rest[j]) by {
        forall j | 0 <= j < |rest| ensures FromNullMessage(messages, rest[j]) {
          assert FromNullMessage(messages[1..], rest[j]);
          var k :| 0 <= k < |messages[1..]| && messages[1..][k].msgType.None? &&
            rest[j] == Untagged(messages[1..][k].id, messages[1..][k].content);
          assert messages[k + 1] == messages[1..][k];
        }
      }
      if messages[0].msgType.None? then
        assert FromNullMessage(messages, Untagged(messages[0].id, messages[0].content)) by {
          assert messages[0].msgType.None?;
        }
        [Untagged(messages[0].id, messages[0].content)] + rest
      else rest
  }

  /** Ids strictly ascending, as rowid order lists them. */
  predicate IdsAscending(rows: seq<Untagged>) {
    forall j, i :: 0 <= j < i < |rows| ==> rows[j].id < rows[i].id
  }

  /** On well-formed tables the untagged listing comes in ascending id order, so `LIMIT` keeps the oldest. */
  lemma UntaggedIdsAscending(t: Tables)
    requires WellFormed(t)
    ensures IdsAscending(UntaggedRows(t.messages))
  {
    UntaggedRowsAscending(t.messages);
  }

  lemma {:induction false} UntaggedRowsAscending(messages: seq<Message>)
    requires forall k, l :: 0 <= k < l < |messages| ==> messages[k].id < messages[l].id
    ensures IdsAscending(UntaggedRows(messages))
    decreases |messages|
  {
    if messages != [] {
      var rest := UntaggedRows(messages[1..]);
      UntaggedRowsAscending(messages[1..]);
      if messages[0].msgType.None? {
        HeadBelowRest(messages);
        ConsAscending(Untagged(messages[0].id, messages[0].content), rest);
      }
    }
  }

  lemma ConsAscending(head: Untagged, rest: seq<Untagged>)
    requires IdsAscending(rest) && forall i :: 0 <= i < |rest| ==> head.id < rest[i].id
    ensures IdsAscending([head] + rest)
  {
    var r := [head] + rest;
    forall j, i | 0 <= j < i < |r| ensures r[j].id < r[i].id {
      assert r[i] == rest[i - 1];
      if j > 0 {
        assert r[j] == rest[j - 1];
      }
    }
  }

  /** The first message's id is below every id listed from the messages after it. */
  lemma HeadBelowRest(messages: seq<Message>)
    requires messages != []
    requires forall k, l :: 0 <= k < l < |messages| ==> messages[k].id < messages[l].id
    ensures var rest := UntaggedRows(messages[1..]); forall i :: 0 <= i < |rest| ==> messages[0].id < rest[i].id
  {
    var rest := UntaggedRows(messages[1..]);
    forall i | 0 <= i < |rest| ensures messages[0].id < rest[i].id {
      assert FromNullMessage(messages[1..], rest[i]);
      var k :| 0 <= k < |messages[1..]| && messages[1..][k].msgType.None? &&
        rest[i] == Untagged(messages[1..][k].id, messages[1..][k].content);
      assert messages[1..][k] == messages[k + 1];
    }
  }

  /** Every message whose type is NULL is listed, in rowid order: the listing misses nothing. */
  lemma {:induction false} UntaggedRowsComplete(messages: seq<Message>, k: nat)
    requires k < |messages| && messages[k].msgType.None?
    ensures Untagged(messages[k].id, messages[k].content) in UntaggedRows(messages)
  {
    if k > 0 {
      UntaggedRowsComplete(messages[1..], k - 1);
      assert messages[1..][k - 1] == messages[k];
    }
  }

  /** Tagging a message removes it from the untagged listing and keeps the rest. */
  lemma {:induction false} UntaggedAfterSetType(messages: seq<Message>, id: int, newType: int)
    ensures UntaggedRows(SetType(messages, id, newType)) ==
      WithoutId(UntaggedRows(messages), id)
  {
    if messages != [] {
      UntaggedAfterSetType(messages[1..], id, newType);
      assert SetType(messages, id, newType)[1..] == SetType(messages[1..], id, newType);
    }
  }

  /** The untagged rows whose id is not `id`. */
  function WithoutId(rows: seq<Untagged>, id: int): (r: seq<Untagged>)
    ensures |r| <= |rows|
    ensures forall j :: 0 <= j < |r| ==> r[j] in rows && r[j].id != id
  {
    if rows == [] then []
    else if rows[0].id == id then WithoutId(rows[1..], id)
    else [rows[0]] + WithoutId(rows[1..], id)
  }

  /** All rows of `SELECT id, content, type FROM messages`, in rowid order. */
  function ListedRows(messages: seq<Message>): (r: seq<Listed>)
    ensures |r| == |messages|
    ensures forall k :: 0 <= k < |r| ==>
      r[k] == Listed(messages[k].id, messages[k].content, messages[k].msgType)
  {
    if messages == [] then []
    else [Listed(messages[0].id, messages[0].content, messages[0].msgType)] + ListedRows(messages[1..])
  }

  // ---------------------------------------------------------------------------
  // Renaming a handle (the UPDATE of processing/anonimizer.py:28)

  /** `UPDATE users SET ssn = ? WHERE id = ?` fails on UNIQUE when another row already holds the handle. */
  predicate RenameConflict(users: seq<User>, id: int, ssn: string) {
    HasUserId(users, id) && exists j :: 0 <= j < |users| && users[j].id != id && users[j].ssn == ssn
  }

  function Rename(users: seq<User>, id: int, ssn: string): (r: seq<User>)
    ensures |r| == |users|
    ensures forall i :: 0 <= i < |r| ==>
      r[i] == if users[i].id == id then User(id, ssn) else users[i]
  {
    if users == [] then []
    else [if users[0].id == id then User(id, ssn) else users[0]] + Rename(users[1..], id, ssn)
  }

  /** A rename that does not conflict keeps the tables well formed: same ids, handles still unique. */
  lemma RenameWellFormed(t: Tables, id: int, ssn: string)
    requires WellFormed(t) && !RenameConflict(t.users, id, ssn)
    ensures WellFormed(Tables(Rename(t.users, id, ssn), t.messages, t.nextUserId, t.nextMessageId))
  {
    var u := Rename(t.users, id, ssn);
    assert forall i :: 0 <= i < |u| ==> u[i].id == t.users[i].id;
    forall k | 0 <= k < |t.messages| ensures HasUserId(u, t.messages[k].userId) {
      SameIdsHaveUser(t.users, u, t.messages[k].userId);
    }
    forall i, j | 0 <= i < j < |u| ensures u[i].ssn != u[j].ssn {
      if t.users[i].id == id {
        assert t.users[j].id != id;
      } else if t.users[j].id == id {
        assert HasUserId(t.users, id);
      }
    }
  }

  /** Two tables with the same ids, row for row, hold the same ids. */
  lemma SameIdsHaveUser(a: seq<User>, b: seq<User>, id: int)
    requires |a| == |b| && forall i :: 0 <= i < |a| ==> b[i].id == a[i].id
    requires HasUserId(a, id)
    ensures HasUserId(b, id)
  {
    var i :| 0 <= i < |a| && a[i].id == id;
    assert b[i].id == id;
  }

  // ---------------------------------------------------------------------------
  // The connection

  /** A connection to the file; `hasTables` is false until `setup_database` has run on it. */
  class Database {
    var hasTables: bool
    var users: seq<User>
    var messages: seq<Message>
    var nextUserId: int
    var nextMessageId: int

    function Snapshot(): (t: Tables)
      reads this
    {
      Tables(users, messages, nextUserId, nextMessageId)
    }

    ghost predicate Valid()
      reads this
    {
      WellFormed(Snapshot()) && (!hasTables ==> Snapshot() == EmptyTables)
    }

    /** `sqlite3.connect(path)`: a file holding `file`'s tables, or a file without tables. */
    constructor Connect(file: Option<Tables>)
      requires file.Some? ==> WellFormed(file.value)
      ensures Valid()
      ensures hasTables == file.Some?
      ensures Snapshot() == if file.Some? then file.value else EmptyTables
    {
      hasTables := file.Some?;
      var t := if file.Some? then file.value else EmptyTables;
      users, messages, nextUserId, nextMessageId := t.users, t.messages, t.nextUserId, t.nextMessageId;
    }

    /**
     * `setup_database` (processing/db.py:5-29): CREATE TABLE IF NOT EXISTS for
     * both tables. Existing tables keep every row; absent ones start empty.
     */
    method Setup()
      requires Valid()
      modifies this
      ensures Valid() && hasTables
      ensures Snapshot() == old(Snapshot())
    {
      hasTables := true;
    }

    /** `get_untagged_messages(conn, limit)` (processing/db.py:31-42). */
    method GetUntaggedMessages(limit: int) returns (rows: seq<Untagged>)
      requires Valid() && hasTables
      ensures rows == Limited(UntaggedRows(messages), limit)
      ensures limit >= 0 ==> |rows| <= limit
      ensures forall j :: 0 <= j < |rows| ==> FromNullMessage(messages, rows[j])
      ensures IdsAscending(rows)
    {
      var all := UntaggedRows(messages);
      rows := Limited(all, limit);
      assert forall j :: 0 <= j < |rows| ==> rows[j] == all[j];
      UntaggedIdsAscending(Snapshot());
    }

    /** `get_messages(conn, limit)` (processing/db.py:44-55): the first `limit` rows in rowid order. */
    method GetMessages(limit: int) returns (rows: seq<Listed>)
      requires Valid() && hasTables
      ensures rows == Limited(ListedRows(messages), limit)
      ensures limit >= 0 ==> |rows| <= limit
      ensures |rows| <= |messages|
      ensures forall k :: 0 <= k < |rows| ==>
        rows[k] == Listed(messages[k].id, messages[k].content, messages[k].msgType)
    {
      rows := Limited(ListedRows(messages), limit);
    }

    /**
     * `update_message_type(conn, message_id, new_type)` (processing/db.py:57-76),
     * committed at once. `NoSuchMessage` is the printed warning; `Overflow` is
     * the OverflowError the driver raises for an integer beyond 64 bits, which
     * the function does not catch.
     */
    method UpdateMessageType(id: int, newType: int) returns (status: UpdateStatus)
      requires Valid() && hasTables
      modifies this
      ensures Valid() && hasTables
      ensures status == UpdateStatusOf(old(Snapshot()), id, newType)
      ensures Snapshot() == UpdateType(old(Snapshot()), id, newType)
    {
      UpdateTypeWellFormed(Snapshot(), id, newType);
      status := UpdateStatusOf(Snapshot(), id, newType);
      if status == Updated {
        messages := SetType(messages, id, newType);
      }
    }

    /** `store_message(conn, ssn, raw_timestamp, content, msg_type)` (processing/db.py:78-116). */
    method StoreMessage(ssn: string, raw: string, content: string, msgType: Option<int>) returns (outcome: StoreOutcome)
      requires Valid() && hasTables
      modifies this
      ensures Valid() && hasTables
      ensures StoreResult(Snapshot(), outcome) == StoreInto(old(Snapshot()), ssn, raw, content, msgType)
    {
      var iso := ConvertTimestamp(raw);
      if iso.None? {
        return BadTimestamp;
      }
      StoreStep(Snapshot(), ssn, raw, content, msgType);
      var userId := GetOrCreateUser(ssn);
      var messageId := InsertMessage(userId, iso.value, content, msgType);
      outcome := Stored(userId, messageId);
    }

    /** `INSERT OR IGNORE INTO users (ssn)` then `SELECT id FROM users WHERE ssn = ?` (processing/db.py:100-103). */
    method GetOrCreateUser(ssn: string) returns (id: int)
      requires Valid() && hasTables
      modifies this
      ensures Valid() && hasTables
      ensures var reg := Register(old(users), old(nextUserId), ssn);
        users == reg.users && nextUserId == reg.nextUserId && id == reg.id
      ensures HasUserId(users, id)
      ensures messages == old(messages) && nextMessageId == old(nextMessageId)
    {
      RegisterSound(Snapshot(), ssn);
      var reg := Register(users, nextUserId, ssn);
      users, nextUserId, id := reg.users, reg.nextUserId, reg.id;
    }

    /** `INSERT INTO messages (user_id, timestamp, content, type)` (processing/db.py:109-112). */
    method InsertMessage(userId: int, timestamp: string, content: string, msgType: Option<int>) returns (id: int)
      requires Valid() && hasTables && HasUserId(users, userId)
      modifies this
      ensures Valid() && hasTables
      ensures id == old(nextMessageId)
      ensures messages == old(messages) + [Message(id, userId, timestamp, content, msgType)]
      ensures users == old(users) && nextUserId == old(nextUserId) && nextMessageId == old(nextMessageId) + 1
    {
      id := nextMessageId;
      var row := Message(id, userId, timestamp, content, msgType);
      AppendMessageWellFormed(Snapshot(), row);
      messages, nextMessageId := messages + [row], nextMessageId + 1;
    }

    /** `SELECT id FROM users ORDER BY id` (processing/anonimizer.py:13-14): rowid order is id order. */
    method SelectUserIds() returns (ids: seq<int>)
      requires Valid() && hasTables
      ensures |ids| == |users| && forall i :: 0 <= i < |ids| ==> ids[i] == users[i].id
      ensures forall i, j :: 0 <= i < j < |ids| ==> ids[i] < ids[j]
    {
      ids := seq(|users|, i requires 0 <= i < |users| reads this => users[i].id);
    }

    /** One `UPDATE users SET ssn = ? WHERE id = ?` inside an open transaction. */
    method RenameUser(id: int, ssn: string) returns (ok: bool)
      requires Valid() && hasTables
      modifies this
      ensures Valid() && hasTables
      ensures ok == !RenameConflict(old(users), id, ssn)
      ensures users == if ok then Rename(old(users), id, ssn) else old(users)
      ensures messages == old(messages) && nextUserId == old(nextUserId) && nextMessageId == old(nextMessageId)
    {
      ok := !RenameConflict(users, id, ssn);
      if ok {
        RenameWellFormed(Snapshot(), id, ssn);
        users := Rename(users, id, ssn);
      }
    }

    /** `conn.rollback()`: the tables return to the state the transaction began in. */
    method Rollback(begin: Tables)
      requires Valid() && hasTables && WellFormed(begin)
      modifies this
      ensures Valid() && hasTables && Snapshot() == begin
    {
      users, messages, nextUserId, nextMessageId := begin.users, begin.messages, begin.nextUserId, begin.nextMessageId;
    }
  }
}
