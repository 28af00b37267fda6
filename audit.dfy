/**
 * The sticker audit (processing/fix_stk.py): every fetched message is typed
 * again by the heuristic, and the messages whose stored type already equals
 * that type are reported. The update call is commented out, so the store is
 * only read.
 */
module Audit {
  import opened Common
  import opened Heuristic
  import opened Store

  /** `get_messages(connection, limit=50000)` (processing/fix_stk.py:4). */
  const AuditLimit := 50000

  /** One printed line: the message and the type it already has. */
  datatype Report = Report(id: int, content: string, msgType: int)

  /** The condition of processing/fix_stk.py:13: a heuristic type that equals the stored one. */
  predicate Confirmed(row: Listed) {
    Classify(row.content).Some? && Classify(row.content) == row.msgType
  }

  /** The reports for `rows`, in fetch order. */
  function Reported(rows: seq<Listed>): (r: seq<Report>)
    ensures |r| <= |rows|
    decreases |rows|
  {
    if rows == [] then []
    else
      var n := |rows| - 1;
      var row := rows[n];
      Reported(rows[..n]) + (if Confirmed(row) then [Report(row.id, row.content, row.msgType.value)] else [])
  }

  /** Reports of consecutive stretches of rows follow one another: fetch order is kept. */
  lemma {:induction false} ReportedConcat(a: seq<Listed>, b: seq<Listed>)
    ensures Reported(a + b) == Reported(a) + Reported(b)
    decreases |b|
  {
    if b == [] {
      assert a + b == a;
    } else {
      var n := |b| - 1;
      assert (a + b)[..|a + b| - 1] == a + b[..n];
      ReportedConcat(a, b[..n]);
    }
  }

  /** Every report names a fetched row whose heuristic type is non-null and equal to its stored type. */
  lemma {:induction false} ReportedSound(rows: seq<Listed>, j: nat)
    requires j < |Reported(rows)|
    ensures exists k ::
              0 <= k < |rows| && Confirmed(rows[k]) &&
              Reported(rows)[j] == Report(rows[k].id, rows[k].content, rows[k].msgType.value)
    decreases |rows|
  {
    var n := |rows| - 1;
    var front := Reported(rows[..n]);
    if j < |front| {
      ReportedSound(rows[..n], j);
      var k :| 0 <= k < n && Confirmed(rows[..n][k]) &&
        front[j] == Report(rows[..n][k].id, rows[..n][k].content, rows[..n][k].msgType.value);
      assert rows[..n][k] == rows[k];
    } else {
      assert Reported(rows)[j] == Report(rows[n].id, rows[n].content, rows[n].msgType.value);
    }
  }

  /** Every fetched row whose heuristic type equals its stored type is reported. */
  lemma {:induction false} ReportedComplete(rows: seq<Listed>, k: nat)
    requires k < |rows| && Confirmed(rows[k])
    ensures Report(rows[k].id, rows[k].content, rows[k].msgType.value) in Reported(rows)
    decreases |rows|
  {
    var n := |rows| - 1;
    if k < n {
      ReportedComplete(rows[..n], k);
      assert rows[..n][k] == rows[k];
    }
  }

  /** Only stickers (4) and media (5) are ever reported: other stored codes never match. */
  lemma ReportedTypes(rows: seq<Listed>, j: nat)
    requires j < |Reported(rows)|
    ensures Reported(rows)[j].msgType == StickerType || Reported(rows)[j].msgType == MediaType
    ensures IsSticker(Reported(rows)[j].content) <==> Reported(rows)[j].msgType == StickerType
  {
    ReportedSound(rows, j);
    var k :| 0 <= k < |rows| && Confirmed(rows[k]) &&
      Reported(rows)[j] == Report(rows[k].id, rows[k].content, rows[k].msgType.value);
  }

  /**
   * The audit script: `setup_database()`, `get_messages(limit=50000)` and the
   * loop of processing/fix_stk.py:6-15. It returns the printed reports; the
   * tables are left as they were.
   */
  method RunAudit(db: Database) returns (reports: seq<Report>)
    requires db.Valid()
    modifies db
    ensures db.Valid() && db.hasTables
    ensures db.Snapshot() == old(db.Snapshot())
    ensures reports == Reported(Limited(ListedRows(db.messages), AuditLimit))
    ensures |reports| <= AuditLimit
  {
    db.Setup();
    var messages := db.GetMessages(AuditLimit);
    reports := AuditRows(messages);
  }

  /** The loop of processing/fix_stk.py:6-15 over the fetched rows. */
  method AuditRows(messages: seq<Listed>) returns (reports: seq<Report>)
    ensures reports == Reported(messages)
  {
    reports := [];
    var i := 0;
    while i < |messages|
      invariant 0 <= i <= |messages|
      invariant reports == Reported(messages[..i])
    {
      var row := messages[i];
      var newType := Classify(row.content);
      if newType.Some? && newType == row.msgType {
        reports := reports + [Report(row.id, row.content, newType.value)];
      }
      assert messages[..i + 1][..i] == messages[..i];
      i := i + 1;
    }
    assert messages[..i] == messages;
  }
}
