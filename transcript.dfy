/**
 * The transcript splitter of processing/split.py: the exported chat text is
 * cut at every "DD/MM/YYYY HH:MM - " marker, the text before the first
 * marker is dropped, and each remaining segment is paired with its marker,
 * split into sender and content, typed by the heuristic and stored.
 */
module Transcript {
  import opened Common
  import opened Strings
  import opened Calendar
  import opened Heuristic
  import opened Store

  // ---------------------------------------------------------------------------
  // The marker `\d{2}/\d{2}/\d{4} \d{2}:\d{2} - `

  const MarkerLength := 19

  /** Two digits, '/', two digits, '/', four digits, ' ', two digits, ':', two digits, then " - ". */
  predicate IsMarker(m: string) {
    |m| == MarkerLength && FixedWidth(m[..16]) && m[16] == ' ' && m[17] == '-' && m[18] == ' '
  }

  predicate MarkerAt(s: string, i: int) {
    0 <= i && i + MarkerLength <= |s| && IsMarker(s[i..i + MarkerLength])
  }

  datatype Split = Split(pieces: seq<string>, markers: seq<string>)

  /**
   * `re.split` from position `i`, the current piece having begun at `start`:
   * leftmost matches, each search resuming after the previous match.
   */
  function ScanFrom(s: string, start: nat, i: nat): (r: Split)
    requires start <= i <= |s|
    ensures |r.pieces| == |r.markers| + 1
    ensures forall j :: 0 <= j < |r.markers| ==> IsMarker(r.markers[j])
    decreases |s| - i
  {
    if i + MarkerLength > |s| then Split([s[start..]], [])
    else if IsMarker(s[i..i + MarkerLength]) then
      var rest := ScanFrom(s, i + MarkerLength, i + MarkerLength);
      Split([s[start..i]] + rest.pieces, [s[i..i + MarkerLength]] + rest.markers)
    else ScanFrom(s, start, i + 1)
  }

  /** `re.findall` from position `i`. */
  function FindAllFrom(s: string, i: nat): (r: seq<string>)
    requires i <= |s|
    ensures forall j :: 0 <= j < |r| ==> IsMarker(r[j])
    decreases |s| - i
  {
    if i + MarkerLength > |s| then []
    else if IsMarker(s[i..i + MarkerLength]) then [s[i..i + MarkerLength]] + FindAllFrom(s, i + MarkerLength)
    else FindAllFrom(s, i + 1)
  }

  /** Pieces and markers interleaved, as they stood in the text. */
  function Join(pieces: seq<string>, markers: seq<string>): (r: string)
    requires |pieces| == |markers| + 1
    decreases |markers|
  {
    if markers == [] then pieces[0]
    else pieces[0] + markers[0] + Join(pieces[1..], markers[1..])
  }

  /** Splitting loses nothing: the pieces and markers put back together are the text. */
  lemma {:induction false} ScanJoin(s: string, start: nat, i: nat)
    requires start <= i <= |s|
    ensures var r := ScanFrom(s, start, i); Join(r.pieces, r.markers) == s[start..]
    decreases |s| - i
  {
    if i + MarkerLength > |s| {
    } else if IsMarker(s[i..i + MarkerLength]) {
      ScanJoin(s, i + MarkerLength, i + MarkerLength);
      JoinAtMarker(s, start, i);
    } else {
      ScanJoin(s, start, i + 1);
    }
  }

  /** The step of ScanJoin at a marker, given the join of what follows it. */
  lemma JoinAtMarker(s: string, start: nat, i: nat)
    requires start <= i && MarkerAt(s, i)
    requires var rest := ScanFrom(s, i + MarkerLength, i + MarkerLength);
      Join(rest.pieces, rest.markers) == s[i + MarkerLength..]
    ensures var r := ScanFrom(s, start, i); Join(r.pieces, r.markers) == s[start..]
  {
    var j := i + MarkerLength;
    var rest := ScanFrom(s, j, j);
    ScanAtMarker(s, start, i);
    JoinCons(s[start..i], s[i..j], rest.pieces, rest.markers);
    assert s[start..] == s[start..i] + s[i..j] + s[j..];
  }

  /** At a marker, `re.split` closes the current piece and records the marker. */
  lemma ScanAtMarker(s: string, start: nat, i: nat)
    requires start <= i && MarkerAt(s, i)
    ensures var rest := ScanFrom(s, i + MarkerLength, i + MarkerLength);
      ScanFrom(s, start, i) == Split([s[start..i]] + rest.pieces, [s[i..i + MarkerLength]] + rest.markers)
  {
  }

  lemma JoinCons(p: string, m: string, pieces: seq<string>, markers: seq<string>)
    requires |pieces| == |markers| + 1
    ensures Join([p] + pieces, [m] + markers) == p + m + Join(pieces, markers)
  {
    assert ([p] + pieces)[1..] == pieces && ([m] + markers)[1..] == markers;
  }

  /** `re.split` and `re.findall` find the same markers, so marker j sits between piece j and piece j + 1. */
  lemma {:induction false} ScanMarkersAreFindAll(s: string, start: nat, i: nat)
    requires start <= i <= |s|
    ensures ScanFrom(s, start, i).markers == FindAllFrom(s, i)
    decreases |s| - i
  {
    if i + MarkerLength > |s| {
    } else if IsMarker(s[i..i + MarkerLength]) {
      ScanMarkersAreFindAll(s, i + MarkerLength, i + MarkerLength);
    } else {
      ScanMarkersAreFindAll(s, start, i + 1);
    }
  }

  /** A marker inside a slice is a marker of the whole text. */
  lemma MarkerInSlice(s: string, i: nat, j: nat, k: int)
    requires i <= j <= |s| && MarkerAt(s[i..j], k)
    ensures MarkerAt(s, i + k)
  {
    var a := s[i..j][k..k + MarkerLength];
    var b := s[i + k..i + k + MarkerLength];
    forall m | 0 <= m < MarkerLength ensures a[m] == b[m] {
    }
    assert a == b;
  }

  /** Leftmost matching: no piece contains a marker. */
  lemma {:induction false} ScanPiecesMarkerFree(s: string, start: nat, i: nat)
    requires start <= i <= |s|
    requires forall k :: start <= k < i ==> !MarkerAt(s, k)
    ensures var r := ScanFrom(s, start, i);
      forall j, k :: 0 <= j < |r.pieces| ==> !MarkerAt(r.pieces[j], k)
    decreases |s| - i
  {
    var r := ScanFrom(s, start, i);
    if i + MarkerLength > |s| {
      assert s[start..] == s[start..|s|];
      forall k | MarkerAt(s[start..|s|], k) ensures false {
        MarkerInSlice(s, start, |s|, k);
      }
    } else if IsMarker(s[i..i + MarkerLength]) {
      ScanPiecesMarkerFree(s, i + MarkerLength, i + MarkerLength);
      forall k | MarkerAt(s[start..i], k) ensures false {
        MarkerInSlice(s, start, i, k);
      }
      assert r.pieces[1..] == ScanFrom(s, i + MarkerLength, i + MarkerLength).pieces;
      forall j, k | 0 <= j < |r.pieces| ensures !MarkerAt(r.pieces[j], k) {
        if j > 0 {
          assert r.pieces[j] == r.pieces[1..][j - 1];
        }
      }
    } else {
      assert !MarkerAt(s, i);
      ScanPiecesMarkerFree(s, start, i + 1);
      assert r == ScanFrom(s, start, i + 1);
    }
  }

  /** `re.split(MARKER, text)` and `re.findall(MARKER, text)`. */
  function SplitText(text: string): (r: Split)
    ensures |r.pieces| == |r.markers| + 1
    ensures r.markers == FindAllFrom(text, 0)
    ensures Join(r.pieces, r.markers) == text
    ensures forall j, k :: 0 <= j < |r.pieces| ==> !MarkerAt(r.pieces[j], k)
  {
    ScanMarkersAreFindAll(text, 0, 0);
    ScanJoin(text, 0, 0);
    ScanPiecesMarkerFree(text, 0, 0);
    ScanFrom(text, 0, 0)
  }

  /** The segments after `result.pop(0)`: the text before the first marker is dropped. */
  function Segments(text: string): (r: seq<string>)
    ensures |r| == |FindAllFrom(text, 0)|
    ensures r == SplitText(text).pieces[1..]
  {
    SplitText(text).pieces[1..]
  }

  // ---------------------------------------------------------------------------
  // One segment: `if ":" in s`, `s.split(": ")[0]`, `s.split(": ")[1][:-1]`

  const Separator := ": "

  datatype Extracted =
    | NoColon                                  // skipped by `if ":" in s`
    | NoSeparator                              // `s.split(": ")[1]` raises IndexError
    | EmptyContent                             // skipped by `if len(content) == 0`
    | Authored(sender: string, content: string)

  /** Python's `t[:-1]`. */
  function DropLast(t: string): (r: string)
    ensures |r| == if t == [] then 0 else |t| - 1
    ensures r == t[..|r|]
  {
    if t == [] then t else t[..|t| - 1]
  }

  /**
   * What the loop body makes of one segment (processing/split.py:14-19):
   * without a ':' it is skipped, with a ':' but no ": " the subscript raises
   * IndexError, and accepted content is never empty.
   */
  function Extract(seg: string): (r: Extracted)
    ensures r == NoColon <==> !Contains(seg, ":")
    ensures r == NoSeparator <==> Contains(seg, ":") && !Contains(seg, Separator)
    ensures r.Authored? ==> r.content != []
  {
    if !Contains(seg, ":") then NoColon
    else match Find(seg, Separator)
      case None => NoSeparator
      case Some(f) =>
        var e := match FindFrom(seg, Separator, f + 2) case None => |seg| case Some(g) => g;
        var content := DropLast(seg[f + 2..e]);
        if content == [] then EmptyContent else Authored(seg[..f], content)
  }

  /**
   * An authored segment begins with sender, ": ", content; the sender is the
   * text before the first ": ", and the content is the text from there to the
   * next ": " (or to the end) without its last character, so it holds no
   * ": " either (processing/split.py:15-16).
   */
  lemma ExtractAuthored(seg: string)
    requires Extract(seg).Authored?
    ensures var a := Extract(seg);
      a.content != [] && StartsWith(seg, a.sender + Separator + a.content) &&
      !Contains(a.sender, Separator) && !Contains(a.content, Separator)
    ensures var a := Extract(seg); var f := |a.sender|;
      Find(seg, Separator) == Some(f) &&
      exists e: nat :: PieceEnd(seg, f, e) && a.content == DropLast(seg[f + 2..e])
  {
    var f := Find(seg, Separator).value;
    var next := FindFrom(seg, Separator, f + 2);
    var e := if next.None? then |seg| else next.value;
    var a := Extract(seg);
    assert a.sender == seg[..f] && a.content == DropLast(seg[f + 2..e]);
    AuthoredParts(seg, f, e, a.content);
    assert |a.sender| == f;
    assert PieceEnd(seg, f, e);
  }

  /**
   * `e` ends the piece after the ": " at `f`: the first ": " at or after
   * `f + 2`, or the end of `seg`.
   */
  predicate PieceEnd(seg: string, f: nat, e: nat) {
    f + 2 <= e <= |seg| && (e == |seg| || OccursAt(seg, Separator, e)) &&
    forall k :: f + 2 <= k < e ==> !OccursAt(seg, Separator, k)
  }

  lemma AuthoredParts(seg: string, f: nat, e: nat, content: string)
    requires f + 2 <= e <= |seg| && OccursAt(seg, Separator, f)
    requires forall k :: 0 <= k < f ==> !OccursAt(seg, Separator, k)
    requires forall k :: f + 2 <= k < e ==> !OccursAt(seg, Separator, k)
    requires content == DropLast(seg[f + 2..e])
    ensures StartsWith(seg, seg[..f] + Separator + content)
    ensures !Contains(seg[..f], Separator) && !Contains(content, Separator)
  {
    var n := |content|;
    assert content == seg[f + 2..f + 2 + n];
    SliceFreeOf(seg, 0, f, Separator);
    SliceFreeOf(seg, f + 2, f + 2 + n, Separator);
    assert seg[f..f + 2] == Separator;
    assert seg[..f + 2 + n] == seg[..f] + seg[f..f + 2] + seg[f + 2..f + 2 + n];
  }

  /** A slice that starts no occurrence in the whole string contains none. */
  lemma SliceFreeOf(s: string, i: nat, j: nat, pat: string)
    requires i <= j <= |s|
    requires forall k :: i <= k && k + |pat| <= j ==> !OccursAt(s, pat, k)
    ensures !Contains(s[i..j], pat)
  {
    forall k | 0 <= k && k + |pat| <= j - i ensures !OccursAt(s[i..j], pat, k) {
      if OccursAt(s[i..j], pat, k) {
        OccursInSlice(s, i, j, pat, k);
      }
    }
    ContainsIff(s[i..j], pat);
  }

  /**
   * The usual exported line, sender ": " text and a final character (the
   * newline), yields that sender and that text without its final character.
   */
  lemma ExtractLine(sender: string, line: string)
    requires !Contains(sender, Separator) && !Contains(line, Separator) && |line| >= 2
    ensures Extract(sender + Separator + line) == Authored(sender, DropLast(line))
  {
    var seg := sender + Separator + line;
    var f := |sender|;
    FirstSeparator(sender, line);
    assert OccursAt(seg, ":", f) by {
      assert seg[f] == ':';
      assert seg[f..f + 1] == [seg[f]];
    }
    ContainsIff(seg, ":");
    NoLaterSeparator(sender, line);
    assert seg[..f] == sender && seg[f + 2..|seg|] == line;
  }

  /**
   * A line that goes on after a second ": " yields only the text between the
   * two separators, without its last character: "ana: oi!: tudo" gives
   * "oi" (processing/split.py:16).
   */
  lemma ExtractTwoSeparators(sender: string, x: string, y: string)
    requires !Contains(sender, Separator) && !Contains(x, Separator) && |x| >= 2
    ensures Extract(sender + Separator + (x + Separator + y)) == Authored(sender, DropLast(x))
  {
    var seg := sender + Separator + (x + Separator + y);
    FirstSeparator(sender, x + Separator + y);
    SeparatorHasColon(seg, |sender|);
    SecondSeparator(sender, x, y);
    SenderAndLine(sender, x, y);
    ExtractBetween(seg, |sender|, |sender| + 2 + |x|);
  }

  /** A segment holding ": " holds ':'. */
  lemma SeparatorHasColon(seg: string, f: nat)
    requires Find(seg, Separator) == Some(f)
    ensures Contains(seg, ":")
  {
    assert seg[f] == seg[f..f + 2][0] == ':';
    assert OccursAt(seg, ":", f) by {
      assert seg[f..f + 1] == [seg[f]];
    }
    ContainsIff(seg, ":");
  }

  /** The pieces of sender ": " x ": " y sit where they were put. */
  lemma SenderAndLine(sender: string, x: string, y: string)
    ensures var seg := sender + Separator + (x + Separator + y); var f := |sender|;
      seg[..f] == sender && f + 2 + |x| <= |seg| && seg[f + 2..f + 2 + |x|] == x
  {
  }

  /** A segment whose first two ": " are at `f` and `e` yields the text between them, last character dropped. */
  lemma ExtractBetween(seg: string, f: nat, e: nat)
    requires Contains(seg, ":") && Find(seg, Separator) == Some(f)
    requires f + 2 <= |seg| && FindFrom(seg, Separator, f + 2) == Some(e)
    requires |seg[f + 2..e]| >= 2
    ensures Extract(seg) == Authored(seg[..f], DropLast(seg[f + 2..e]))
  {
  }

  /** After the sender's ": ", the next one is the one after `x`. */
  lemma SecondSeparator(sender: string, x: string, y: string)
    requires !Contains(x, Separator)
    ensures FindFrom(sender + Separator + (x + Separator + y), Separator, |sender| + 2) == Some(|sender| + 2 + |x|)
  {
    var line := x + Separator + y;
    var seg := sender + Separator + line;
    var f := |sender| + 2;
    var g := f + |x|;
    FirstSeparator(x, y);
    assert seg[f..] == line;
    forall k | f <= k < g ensures !OccursAt(seg, Separator, k) {
      assert !OccursAt(line, Separator, k - f);
      if k + 2 <= |seg| {
        assert seg[k..k + 2] == line[k - f..k - f + 2];
      }
    }
    assert seg[g..g + 2] == line[|x|..|x| + 2];
    FindFromIs(seg, Separator, f, g);
  }

  /** In sender ": " line, the first ": " is the one after the sender. */
  lemma FirstSeparator(sender: string, line: string)
    requires !Contains(sender, Separator)
    ensures Find(sender + Separator + line, Separator) == Some(|sender|)
  {
    var seg := sender + Separator + line;
    var f := |sender|;
    assert seg[..f] == sender && seg[f..f + 2] == Separator;
    forall k | 0 <= k < f ensures !OccursAt(seg, Separator, k) {
      if k + 2 <= f {
        if OccursAt(seg, Separator, k) {
          OccursInWhole(seg, 0, f, Separator, k);
          ContainsIff(sender, Separator);
        }
      } else {
        assert seg[k + 1] == seg[f..f + 2][0] == ':';
        assert k + 2 <= |seg| ==> seg[k..k + 2][1] == seg[k + 1];
      }
    }
    FindIs(seg, Separator, f);
  }

  /** After that ": ", a line without one holds no other. */
  lemma NoLaterSeparator(sender: string, line: string)
    requires !Contains(line, Separator)
    ensures FindFrom(sender + Separator + line, Separator, |sender| + 2).None?
  {
    var seg := sender + Separator + line;
    var f := |sender|;
    assert seg[f + 2..|seg|] == line;
    forall k | f + 2 <= k ensures !OccursAt(seg, Separator, k) {
      if OccursAt(seg, Separator, k) {
        OccursInWhole(seg, f + 2, |seg|, Separator, k);
        ContainsIff(line, Separator);
      }
    }
  }

  // ---------------------------------------------------------------------------
  // The loop of processing/split.py:12-28

  /** One `store_message(connection, userName, time, content, type)` call. */
  datatype Record = Record(sender: string, timestamp: string, content: string, msgType: Option<int>)

  /** The calls made, in order, and whether the loop died on a segment without ": ". */
  datatype Plan = Plan(records: seq<Record>, crashed: bool)

  /** `timestamps[i][0:16]`: the marker without its " - ". */
  function StampOf(marker: string): (r: string)
    ensures IsMarker(marker) ==> FixedWidth(r) && r == marker[..16]
  {
    Take(marker, 16)
  }

  /** One iteration of the loop on a segment that yielded `e`, with marker `stamp`. */
  function Step(p: Plan, e: Extracted, stamp: string): (r: Plan)
    ensures p.crashed ==> r == p
    ensures r.crashed <==> p.crashed || e == NoSeparator
    ensures |p.records| <= |r.records| <= |p.records| + 1 && r.records[..|p.records|] == p.records
    ensures |r.records| > |p.records| <==> !p.crashed && e.Authored?
    ensures |r.records| > |p.records| ==> r.records[|p.records|] == AsRecord(e, stamp)
  {
    if p.crashed then p
    else match e
      case NoSeparator => Plan(p.records, true)
      case Authored(sender, content) =>
        Plan(p.records + [AsRecord(e, stamp)], false)
      case _ => p
  }

  /** `Extract` of every segment, in order. */
  function ExtractAll(segments: seq<string>): (r: seq<Extracted>)
    ensures |r| == |segments| && forall i :: 0 <= i < |r| ==> r[i] == Extract(segments[i])
  {
    seq(|segments|, i requires 0 <= i < |segments| => Extract(segments[i]))
  }

  /** What the loop does with the first `|extracted|` segments, segment j paired with `stamps[j]`. */
  function PlanOf(extracted: seq<Extracted>, stamps: seq<string>): (p: Plan)
    requires |extracted| == |stamps|
    ensures |p.records| <= |extracted|
    decreases |extracted|
  {
    if extracted == [] then Plan([], false)
    else
      var n := |extracted| - 1;
      Step(PlanOf(extracted[..n], stamps[..n]), extracted[n], stamps[n])
  }

  /**
   * Every call carries non-empty content typed by the heuristic
   * (processing/split.py:18-25).
   */
  lemma {:induction false} PlanRecordTyped(segments: seq<string>, stamps: seq<string>, j: nat)
    requires |segments| == |stamps| && j < |PlanOf(ExtractAll(segments), stamps).records|
    ensures var rec := PlanOf(ExtractAll(segments), stamps).records[j];
      rec.content != [] && rec.msgType == Classify(rec.content)
  {
    var extracted := ExtractAll(segments);
    PlanRecordsFromAuthored(extracted, stamps, j);
    var i :| 0 <= i < |extracted| && extracted[i].Authored? &&
      PlanOf(extracted, stamps).records[j] == AsRecord(extracted[i], stamps[i]);
    assert extracted[i] == Extract(segments[i]);
  }

  /** The call made for an authored segment, paired with its marker. */
  function AsRecord(e: Extracted, stamp: string): (r: Record)
    requires e.Authored?
    ensures r.sender == e.sender && r.content == e.content && r.timestamp == StampOf(stamp)
    ensures r.msgType == Classify(r.content)
  {
    Record(e.sender, StampOf(stamp), e.content, Classify(e.content))
  }

  /** Each call comes from one authored segment and its own marker. */
  lemma {:induction false} PlanRecordsFromAuthored(extracted: seq<Extracted>, stamps: seq<string>, j: nat)
    requires |extracted| == |stamps| && j < |PlanOf(extracted, stamps).records|
    ensures exists i ::
              0 <= i < |extracted| && extracted[i].Authored? &&
              PlanOf(extracted, stamps).records[j] == AsRecord(extracted[i], stamps[i])
    decreases |extracted|
  {
    var n := |extracted| - 1;
    var p := PlanOf(extracted[..n], stamps[..n]);
    var r := Step(p, extracted[n], stamps[n]);
    if j < |p.records| {
      PlanRecordsFromAuthored(extracted[..n], stamps[..n], j);
      var i :| 0 <= i < n && extracted[..n][i].Authored? &&
        p.records[j] == AsRecord(extracted[..n][i], stamps[..n][i]);
      assert r.records[j] == r.records[..|p.records|][j];
      assert extracted[..n][i] == extracted[i] && stamps[..n][i] == stamps[i];
    } else {
      assert r.records[j] == AsRecord(extracted[n], stamps[n]);
    }
  }

  /** The plan for a whole transcript. */
  function TranscriptPlan(text: string): (p: Plan)
    ensures forall j :: 0 <= j < |p.records| ==> FixedWidth(p.records[j].timestamp)
  {
    var stamps := FindAllFrom(text, 0);
    var p := PlanOf(ExtractAll(Segments(text)), stamps);
    forall j | 0 <= j < |p.records| ensures FixedWidth(p.records[j].timestamp) {
      var extracted := ExtractAll(Segments(text));
      PlanRecordsFromAuthored(extracted, stamps, j);
      var i :| 0 <= i < |extracted| && extracted[i].Authored? &&
        p.records[j] == AsRecord(extracted[i], stamps[i]);
      assert IsMarker(stamps[i]);
    }
    p
  }

  /** Once the loop has died, later segments change nothing. */
  lemma {:induction false} PlanStaysCrashed(extracted: seq<Extracted>, stamps: seq<string>, i: nat)
    requires |extracted| == |stamps| && i <= |extracted|
    requires PlanOf(extracted[..i], stamps[..i]).crashed
    ensures PlanOf(extracted, stamps) == PlanOf(extracted[..i], stamps[..i])
    decreases |extracted|
  {
    if i < |extracted| {
      var n := |extracted| - 1;
      assert extracted[..n][..i] == extracted[..i] && stamps[..n][..i] == stamps[..i];
      PlanStaysCrashed(extracted[..n], stamps[..n], i);
    } else {
      assert extracted[..i] == extracted && stamps[..i] == stamps;
    }
  }

  /** The store after each call of the plan has been made, in order. */
  function StoreAll(t: Tables, records: seq<Record>): (r: Tables)
    requires WellFormed(t)
    ensures WellFormed(r)
    decreases |records|
  {
    if records == [] then t
    else
      var n := |records| - 1;
      var rec := records[n];
      StoreInto(StoreAll(t, records[..n]), rec.sender, rec.timestamp, rec.content, rec.msgType).tables
  }

  /** One more segment is one more step. */
  lemma PlanPrefixStep(extracted: seq<Extracted>, stamps: seq<string>, i: nat)
    requires |extracted| == |stamps| && i < |extracted|
    ensures PlanOf(extracted[..i + 1], stamps[..i + 1]) ==
      Step(PlanOf(extracted[..i], stamps[..i]), extracted[i], stamps[i])
  {
    assert extracted[..i + 1][..i] == extracted[..i] && stamps[..i + 1][..i] == stamps[..i];
  }

  /** What the loop's next segment does to the plan, case by case. */
  lemma PlanAdvance(extracted: seq<Extracted>, stamps: seq<string>, i: nat)
    requires |extracted| == |stamps| && i < |extracted|
    requires !PlanOf(extracted[..i], stamps[..i]).crashed
    ensures var before := PlanOf(extracted[..i], stamps[..i]);
      extracted[i].NoSeparator? ==>
        PlanOf(extracted, stamps).crashed && PlanOf(extracted, stamps).records == before.records
    ensures var before := PlanOf(extracted[..i], stamps[..i]);
      var after := PlanOf(extracted[..i + 1], stamps[..i + 1]);
      extracted[i].Authored? ==> !after.crashed && after.records == before.records + [AsRecord(extracted[i], stamps[i])]
    ensures !extracted[i].NoSeparator? && !extracted[i].Authored? ==>
      PlanOf(extracted[..i + 1], stamps[..i + 1]) == PlanOf(extracted[..i], stamps[..i])
  {
    var before := PlanOf(extracted[..i], stamps[..i]);
    PlanPrefixStep(extracted, stamps, i);
    var after := PlanOf(extracted[..i + 1], stamps[..i + 1]);
    if extracted[i].NoSeparator? {
      PlanStaysCrashed(extracted, stamps, i + 1);
      assert extracted[..|extracted|] == extracted && stamps[..|stamps|] == stamps;
    } else if extracted[i].Authored? {
      assert after.records == after.records[..|before.records|] + [after.records[|before.records|]];
    }
  }

  /** One more record is one more `store_message`. */
  lemma StoreAllSnoc(t: Tables, records: seq<Record>, rec: Record)
    requires WellFormed(t)
    ensures StoreAll(t, records + [rec]) ==
      StoreInto(StoreAll(t, records), rec.sender, rec.timestamp, rec.content, rec.msgType).tables
  {
    assert (records + [rec])[..|records|] == records;
  }

  /**
   * The splitter script: `setup_database()`, then one `store_message` per
   * accepted segment in file order (processing/split.py:5-28). `crashed`
   * reports the uncaught IndexError; the calls made before it stay committed.
   */
  method RunSplit(db: Database, text: string) returns (crashed: bool)
    requires db.Valid()
    modifies db
    ensures db.Valid() && db.hasTables
    ensures crashed == TranscriptPlan(text).crashed
    ensures db.Snapshot() == StoreAll(old(db.Snapshot()), TranscriptPlan(text).records)
  {
    db.Setup();
    crashed := StoreSegments(db, Segments(text), FindAllFrom(text, 0));
  }

  /** The loop of processing/split.py:12-28 over the paired segments and markers. */
  method StoreSegments(db: Database, segments: seq<string>, stamps: seq<string>) returns (crashed: bool)
    requires db.Valid() && db.hasTables && |segments| == |stamps|
    modifies db
    ensures db.Valid() && db.hasTables
    ensures crashed == PlanOf(ExtractAll(segments), stamps).crashed
    ensures db.Snapshot() == StoreAll(old(db.Snapshot()), PlanOf(ExtractAll(segments), stamps).records)
  {
    ghost var extracted := ExtractAll(segments);
    ghost var start := db.Snapshot();
    var i := 0;
    crashed := false;
    while i < |segments|
      invariant 0 <= i <= |segments|
      invariant db.Valid() && db.hasTables
      invariant !PlanOf(extracted[..i], stamps[..i]).crashed
      invariant db.Snapshot() == StoreAll(start, PlanOf(extracted[..i], stamps[..i]).records)
    {
      ghost var before := PlanOf(extracted[..i], stamps[..i]);
      var e := Extract(segments[i]);
      PlanAdvance(extracted, stamps, i);
      if e.NoSeparator? {
        crashed := true;
        return;
      }
      if e.Authored? {
        var rec := AsRecord(e, stamps[i]);
        var _ := db.StoreMessage(rec.sender, rec.timestamp, rec.content, rec.msgType);
        StoreAllSnoc(start, before.records, rec);
      }
      i := i + 1;
    }
    assert extracted[..i] == extracted && stamps[..i] == stamps;
  }
}
