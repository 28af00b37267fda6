/**
 * The anonymizer (processing/anonimizer.py): every user handle is replaced
 * by "Pessoa k", k counting users in ascending id order, in one transaction
 * that is rolled back when any UPDATE fails.
 */
module Anonymizer {
  import opened Strings
  import opened Store

  const PseudonymPrefix := "Pessoa "

  /** `f"Pessoa {index}"` (processing/anonimizer.py:22). */
  function Pseudonym(k: nat): (s: string)
    ensures |s| > |PseudonymPrefix| && s[..|PseudonymPrefix|] == PseudonymPrefix
  {
    PseudonymPrefix + NatToString(k)
  }

  lemma PseudonymInjective(a: nat, b: nat)
    requires Pseudonym(a) == Pseudonym(b)
    ensures a == b
  {
    var n := |PseudonymPrefix|;
    assert Pseudonym(a)[n..] == NatToString(a) && Pseudonym(b)[n..] == NatToString(b);
    NatToStringInjective(a, b);
  }

  /** One tuple `(novo_nome, user_id)` of `atualizacoes`. */
  datatype Assignment = Assignment(ssn: string, id: int)

  /** The users table after a successful run. */
  function Relabel(users: seq<User>): (r: seq<User>)
    ensures |r| == |users|
  {
    seq(|users|, m requires 0 <= m < |users| => User(users[m].id, Pseudonym(m + 1)))
  }

  /** The users table after the first `j` UPDATEs of `executemany`. */
  function RelabelPrefix(users: seq<User>, j: nat): (r: seq<User>)
    ensures |r| == |users|
  {
    seq(|users|, m requires 0 <= m < |users| =>
      if m < j then User(users[m].id, Pseudonym(m + 1)) else users[m])
  }

  /**
   * Some UPDATE among the first `j` hits the UNIQUE constraint on `ssn`
   * (processing/db.py:13): a later user still holds the handle an earlier
   * user is being given.
   */
  predicate CollidesBefore(users: seq<User>, j: nat) {
    exists k, m :: 0 <= k < j && k < m < |users| && HeldLater(users, k, m)
  }

  /** User m, behind user k, holds the handle user k is to receive. */
  predicate HeldLater(users: seq<User>, k: int, m: int) {
    0 <= k < m < |users| && users[m].ssn == Pseudonym(k + 1)
  }

  predicate Collides(users: seq<User>) {
    CollidesBefore(users, |users|)
  }

  /** Ids strictly increase along the table, so each id names one row. */
  lemma IdsDistinct(users: seq<User>, next: int, i: nat, m: nat)
    requires UserIdsOrdered(users, next) && i < |users| && m < |users|
    ensures users[i].id == users[m].id <==> i == m
  {
    if i < m {
      assert users[i].id < users[m].id;
    } else if m < i {
      assert users[m].id < users[i].id;
    }
  }

  /**
   * The UPDATE giving user `j` its pseudonym conflicts exactly when a later
   * user holds that pseudonym already.
   */
  lemma RenameStepConflict(users: seq<User>, next: int, j: nat)
    requires UserIdsOrdered(users, next) && j < |users|
    ensures RenameConflict(RelabelPrefix(users, j), users[j].id, Pseudonym(j + 1)) <==>
      exists m :: HeldLater(users, j, m)
  {
    var v := RelabelPrefix(users, j);
    var id, name := users[j].id, Pseudonym(j + 1);
    assert HasUserId(v, id) by { assert v[j].id == id; }
    if exists m :: HeldLater(users, j, m) {
      var m :| HeldLater(users, j, m);
      IdsDistinct(users, next, m, j);
      assert v[m].id != id && v[m].ssn == name;
    }
    if RenameConflict(v, id, name) {
      var i :| 0 <= i < |v| && v[i].id != id && v[i].ssn == name;
      IdsDistinct(users, next, i, j);
      if i < j {
        PseudonymInjective(i + 1, j + 1);
      }
      assert HeldLater(users, j, i);
    }
  }

  /** Without a conflict, that UPDATE extends the relabelled prefix by one row. */
  lemma RenameStepResult(users: seq<User>, next: int, j: nat)
    requires UserIdsOrdered(users, next) && j < |users|
    ensures Rename(RelabelPrefix(users, j), users[j].id, Pseudonym(j + 1)) == RelabelPrefix(users, j + 1)
  {
    var r := Rename(RelabelPrefix(users, j), users[j].id, Pseudonym(j + 1));
    var w := RelabelPrefix(users, j + 1);
    forall i | 0 <= i < |r| ensures r[i] == w[i] {
      IdsDistinct(users, next, i, j);
    }
  }

  /** Relabelling keeps every id and row count and gives row m the handle "Pessoa m+1", all distinct. */
  lemma RelabelHandles(users: seq<User>)
    ensures forall m :: 0 <= m < |users| ==> Relabel(users)[m] == User(users[m].id, Pseudonym(m + 1))
    ensures UniqueHandles(Relabel(users))
  {
    var r := Relabel(users);
    forall i, j | 0 <= i < j < |r| ensures r[i].ssn != r[j].ssn {
      if r[i].ssn == r[j].ssn {
        PseudonymInjective(i + 1, j + 1);
      }
    }
  }

  /** The handles after relabelling are exactly "Pessoa 1" to "Pessoa n". */
  lemma RelabelHandleSet(users: seq<User>)
    ensures (set m | 0 <= m < |users| :: Relabel(users)[m].ssn) == (set k | 1 <= k <= |users| :: Pseudonym(k))
  {
    var r := Relabel(users);
    var handles := set m | 0 <= m < |users| :: r[m].ssn;
    var names := set k | 1 <= k <= |users| :: Pseudonym(k);
    forall h | h in names ensures h in handles {
      var k :| 1 <= k <= |users| && h == Pseudonym(k);
      assert r[k - 1].ssn == h;
    }
  }

  /** In ascending id order the user at position m has exactly the m users before it below its id. */
  lemma RankByIds(users: seq<User>, next: int, m: nat)
    requires UserIdsOrdered(users, next) && m < |users|
    ensures forall i :: 0 <= i < |users| ==> (users[i].id < users[m].id <==> i < m)
  {
    forall i | 0 <= i < |users| ensures users[i].id < users[m].id <==> i < m {
      IdsDistinct(users, next, i, m);
      if m < i {
        assert users[m].id < users[i].id;
      }
    }
  }

  /** A relabelled table relabels to itself without conflict: a second run changes nothing. */
  lemma RelabelIdempotent(users: seq<User>)
    ensures !Collides(Relabel(users))
    ensures Relabel(Relabel(users)) == Relabel(users)
  {
    var r := Relabel(users);
    forall k, m | 0 <= k < |r| ensures !HeldLater(r, k, m) {
      if HeldLater(r, k, m) {
        PseudonymInjective(m + 1, k + 1);
      }
    }
  }

  /** A user already called "Pessoa 1" behind the first user makes the first UPDATE fail. */
  lemma HeldPseudonymCollides(users: seq<User>)
    requires |users| >= 2 && users[1].ssn == "Pessoa 1"
    ensures Collides(users)
  {
    assert NatToString(1) == "1";
    assert HeldLater(users, 0, 1);
  }

  /** The loop of processing/anonimizer.py:18-23: one pair per id, numbered from 1 in id order. */
  method BuildAssignments(ids: seq<int>) returns (updates: seq<Assignment>)
    ensures |updates| == |ids|
    ensures forall k :: 0 <= k < |ids| ==> updates[k] == Assignment(Pseudonym(k + 1), ids[k])
  {
    updates := [];
    var i := 0;
    while i < |ids|
      invariant 0 <= i <= |ids|
      invariant |updates| == i
      invariant forall k :: 0 <= k < i ==> updates[k] == Assignment(Pseudonym(k + 1), ids[k])
    {
      updates := updates + [Assignment(Pseudonym(i + 1), ids[i])];
      i := i + 1;
    }
  }

  /**
   * `anonimizar_tabela` (processing/anonimizer.py:3-38). Without tables the
   * SELECT fails and nothing happens; otherwise the relabelling is committed
   * when no UPDATE conflicts and rolled back entirely when one does.
   */
  method Anonymize(db: Database) returns (ok: bool)
    requires db.Valid()
    modifies db
    ensures db.Valid() && db.hasTables == old(db.hasTables)
    ensures ok <==> old(db.hasTables) && !Collides(old(db.users))
    ensures ok ==> db.users == Relabel(old(db.users))
    ensures !ok ==> db.users == old(db.users)
    ensures db.messages == old(db.messages)
    ensures db.nextUserId == old(db.nextUserId) && db.nextMessageId == old(db.nextMessageId)
  {
    if !db.hasTables {
      return false;
    }
    var begin := db.Snapshot();
    var ids := db.SelectUserIds();
    var updates := BuildAssignments(ids);
    var j := 0;
    while j < |updates|
      invariant 0 <= j <= |updates|
      invariant db.Valid() && db.hasTables
      invariant db.users == RelabelPrefix(begin.users, j)
      invariant db.messages == begin.messages
      invariant db.nextUserId == begin.nextUserId && db.nextMessageId == begin.nextMessageId
      invariant !CollidesBefore(begin.users, j)
    {
      RenameStepConflict(begin.users, begin.nextUserId, j);
      RenameStepResult(begin.users, begin.nextUserId, j);
      var renamed := db.RenameUser(updates[j].id, updates[j].ssn);
      if !renamed {
        ghost var m :| HeldLater(begin.users, j, m);
        assert CollidesBefore(begin.users, |begin.users|);
        db.Rollback(begin);
        return false;
      }
      forall k, m | 0 <= k < j + 1 && k < m < |begin.users| ensures !HeldLater(begin.users, k, m) {
      }
      j := j + 1;
    }
    assert db.users == Relabel(begin.users);
    ok := true;
  }
}
