/**
 * The classification run (processing/async_deepseek_classifier.py): untagged
 * messages are fetched, cut to 200 characters, split into batches of 25, sent
 * to the language model, and the codes it returns are written back one row at
 * a time. The model's reply and the JSON decoder are parameters.
 */
module Classifier {
  import opened Common
  import opened Strings
  import opened Store

  const BatchSize := 25
  const FetchLimit := 273
  const TextLimit := 200
  const JsonFence := "```json"

  // ---------------------------------------------------------------------------
  // chunk_list

  function Min(a: int, b: int): int { if a < b then a else b }

  /**
   * `list(chunk_list(data, size))` (processing/async_deepseek_classifier.py:155-158):
   * ceil(n / size) chunks, each non-empty and at most `size` long, all but
   * the last exactly `size` long.
   */
  function ChunkList<T>(data: seq<T>, size: nat): (r: seq<seq<T>>)
    requires size > 0
    ensures forall i :: 0 <= i < |r| ==> 0 < |r[i]| <= size
    ensures forall i :: 0 <= i < |r| - 1 ==> |r[i]| == size
    decreases |data|
  {
    if data == [] then []
    else
      var n := Min(size, |data|);
      [data[..n]] + ChunkList(data[n..], size)
  }

  /** There are ceil(n / size) chunks: the least count whose `size`-long chunks hold n elements. */
  lemma {:induction false} ChunkCount<T>(data: seq<T>, size: nat)
    requires size > 0
    ensures var c := |ChunkList(data, size)|;
      (c - 1) * size < |data| <= c * size
    decreases |data|
  {
    if data != [] {
      var n := Min(size, |data|);
      var c := |ChunkList(data[n..], size)|;
      ChunkCount(data[n..], size);
      assert |ChunkList(data, size)| == c + 1;
      assert (c - 1) * size + size == c * size;
      assert c * size + size == (c + 1) * size;
    }
  }

  function Flatten<T>(chunks: seq<seq<T>>): seq<T> {
    if chunks == [] then [] else chunks[0] + Flatten(chunks[1..])
  }

  /** The chunks, put back together, are the input. */
  lemma {:induction false} FlattenChunks<T>(data: seq<T>, size: nat)
    requires size > 0
    ensures Flatten(ChunkList(data, size)) == data
    decreases |data|
  {
    if data != [] {
      var n := Min(size, |data|);
      var chunks := ChunkList(data, size);
      var rest := ChunkList(data[n..], size);
      assert chunks == [data[..n]] + rest;
      assert chunks[0] == data[..n] && chunks[1..] == rest;
      FlattenChunks(data[n..], size);
      assert Flatten(chunks) == data[..n] + Flatten(rest);
      assert data[..n] + data[n..] == data;
    }
  }

  /** Chunk i is `data[i * size : i * size + size]`, the slice the generator yields. */
  lemma ChunkAt<T>(data: seq<T>, size: nat, i: nat)
    requires size > 0 && i < |ChunkList(data, size)|
    ensures i * size < |data|
    ensures ChunkList(data, size)[i] == data[i * size..Min(i * size + size, |data|)]
  {
    ChunkAtOffset(data, size, i);
    OffsetIsProduct(i, size);
  }

  /** The start of chunk i, counted one chunk at a time. */
  function Offset(i: nat, size: nat): nat {
    if i == 0 then 0 else Offset(i - 1, size) + size
  }

  lemma {:induction false} OffsetIsProduct(i: nat, size: nat)
    ensures Offset(i, size) == i * size
  {
    if i > 0 {
      OffsetIsProduct(i - 1, size);
      assert (i - 1) * size + size == i * size;
    }
  }

  lemma {:induction false} ChunkAtOffset<T>(data: seq<T>, size: nat, i: nat)
    requires size > 0 && i < |ChunkList(data, size)|
    ensures Offset(i, size) < |data|
    ensures ChunkList(data, size)[i] == data[Offset(i, size)..Min(Offset(i, size) + size, |data|)]
    decreases i
  {
    if i > 0 {
      var n := Min(size, |data|);
      ChunkListTail(data, size, i);
      ChunkAtOffset(data[n..], size, i - 1);
      ChunkShift(data, size, i);
    }
  }

  /** Chunk i of the whole is chunk i - 1 of what follows the first chunk. */
  lemma ChunkListTail<T>(data: seq<T>, size: nat, i: nat)
    requires size > 0 && 0 < i < |ChunkList(data, size)|
    ensures var n := Min(size, |data|);
      i - 1 < |ChunkList(data[n..], size)| && ChunkList(data, size)[i] == ChunkList(data[n..], size)[i - 1]
  {
    var n := Min(size, |data|);
    assert ChunkList(data, size) == [data[..n]] + ChunkList(data[n..], size);
  }

  /** The offset of chunk i - 1 in the rest, moved past the first chunk, is the offset of chunk i. */
  lemma ChunkShift<T>(data: seq<T>, size: nat, i: nat)
    requires size > 0 && 0 < i < |ChunkList(data, size)|
    requires var n := Min(size, |data|); var rest := data[n..]; var lo := Offset(i - 1, size);
      i - 1 < |ChunkList(rest, size)| && lo < |rest| &&
      ChunkList(data, size)[i] == ChunkList(rest, size)[i - 1] &&
      ChunkList(rest, size)[i - 1] == rest[lo..Min(lo + size, |rest|)]
    ensures Offset(i, size) < |data|
    ensures ChunkList(data, size)[i] == data[Offset(i, size)..Min(Offset(i, size) + size, |data|)]
  {
    var n := Min(size, |data|);
    var rest := data[n..];
    var lo := Offset(i - 1, size);
    var hi := Min(lo + size, |rest|);
    assert rest != [] && n == size;
    assert Offset(i, size) == lo + n;
    assert Min(Offset(i, size) + size, |data|) == hi + n;
    SliceOfSuffix(data, n, lo, hi);
  }

  lemma SliceOfSuffix<T>(s: seq<T>, n: nat, lo: nat, hi: nat)
    requires n <= |s| && lo <= hi <= |s| - n
    ensures s[n..][lo..hi] == s[n + lo..n + hi]
  {
  }

  // ---------------------------------------------------------------------------
  // The request

  /** `{"id": row[0], "text": row[1][:200]}`. */
  datatype Item = Item(id: int, text: string)

  /** processing/async_deepseek_classifier.py:177: ids in fetch order, each text cut to 200 characters. */
  function Format(rows: seq<Untagged>): (r: seq<Item>)
    ensures |r| == |rows|
    ensures forall i :: 0 <= i < |r| ==>
      r[i].id == rows[i].id &&
      |r[i].text| == Min(|rows[i].content|, TextLimit) &&
      r[i].text == rows[i].content[..|r[i].text|]
  {
    seq(|rows|, i requires 0 <= i < |rows| => Item(rows[i].id, Take(rows[i].content, TextLimit)))
  }

  // ---------------------------------------------------------------------------
  // The reply

  /** `content.replace("```json", "").replace("```", "").strip()` (processing/async_deepseek_classifier.py:112). */
  function Clean(content: string): (r: string)
    ensures r == [] || (!IsSpace(r[0]) && !IsSpace(r[|r| - 1]))
  {
    Strip(RemoveAll(RemoveAll(content, JsonFence), Fence))
  }

  /** The cleaned reply holds no fence of either kind. */
  lemma CleanRemovesFences(content: string)
    ensures forall k :: !OccursAt(Clean(content), Fence, k)
    ensures forall k :: !OccursAt(Clean(content), JsonFence, k)
  {
    var s := RemoveAll(RemoveAll(content, JsonFence), Fence);
    RemoveFenceComplete(RemoveAll(content, JsonFence));
    StripKeepsAbsence(s, Fence);
    FenceStartsJsonFence(Clean(content));
  }

  /**
   * What the fences wrap survives cleaning: a backtick-free payload, bare or
   * between "```json" and "```", comes out as the payload with its outer
   * whitespace stripped.
   */
  lemma CleanKeepsPayload(p: string)
    requires NoTick(p)
    ensures Clean(p) == Strip(p)
    ensures Clean(JsonFence + p + Fence) == Strip(p)
  {
    RemoveAllKeepsPrefix(p, [], JsonFence);
    RemoveAllKeepsPrefix(p, [], Fence);
    assert p + [] == p;
    RemovedFromFenced(p);
  }

  /** "```json", the payload and "```" leave the payload once both fences are removed. */
  lemma RemovedFromFenced(p: string)
    requires NoTick(p)
    ensures RemoveAll(RemoveAll(JsonFence + p + Fence, JsonFence), Fence) == p
  {
    var s := JsonFence + p + Fence;
    assert s[..|JsonFence|] == JsonFence && s[|JsonFence|..] == p + Fence;
    RemoveAllKeepsPrefix(p, Fence, JsonFence);
    assert RemoveAll(Fence, JsonFence) == Fence;
    RemoveAllKeepsPrefix(p, Fence, Fence);
    assert Fence[..|Fence|] == Fence && Fence[|Fence|..] == [];
    assert p + [] == p;
  }

  lemma FenceStartsJsonFence(r: string)
    requires forall k :: !OccursAt(r, Fence, k)
    ensures forall k :: !OccursAt(r, JsonFence, k)
  {
    assert JsonFence[..3] == Fence by {
      assert JsonFence[0] == '`' && JsonFence[1] == '`' && JsonFence[2] == '`';
    }
    forall k | 0 <= k && k + |JsonFence| <= |r| ensures !OccursAt(r, JsonFence, k) {
      assert r[k..k + 3] == r[k..k + |JsonFence|][..3];
      assert !OccursAt(r, Fence, k);
    }
  }

  /** A JSON value as far as the update loop looks at it. */
  datatype Json = Number(n: int) | Text(s: string) | Other

  /** One element of the decoded list: an object, a string, an array, or a number, boolean or null. */
  datatype Entry =
    | Object(fields: map<string, Json>)
    | Str(s: string)
    | Array(items: seq<Json>)
    | Scalar

  /**
   * Whether the pass over `e` raises out of the loop
   * (processing/async_deepseek_classifier.py:142-149). On a number, boolean or
   * null, `"id" in e` raises TypeError; on a string holding both "id" and
   * "codigo" as substrings, or an array holding both as elements, `e["id"]`
   * raises TypeError. The handler's `e.get('id')` then raises AttributeError,
   * which leaves the loop for the outer `except`. An object never gets there:
   * its errors are caught by the handler and the loop goes on.
   */
  predicate Aborts(e: Entry) {
    match e
    case Object(_) => false
    case Str(s) => Contains(s, "id") && Contains(s, "codigo")
    case Array(items) => Text("id") in items && Text("codigo") in items
    case Scalar => true
  }

  /**
   * `classify_batch` (processing/async_deepseek_classifier.py:91-116): the
   * reply (None when the call raises) is cleaned and decoded; a failed call
   * or an undecodable payload gives the empty list. `decode` is `json.loads`
   * restricted to replies that decode to a list.
   */
  function ClassifyBatch(reply: Option<string>, decode: string -> Option<seq<Entry>>): (r: seq<Entry>)
    ensures reply.None? ==> r == []
    ensures r == [] || (reply.Some? && decode(Clean(reply.value)) == Some(r))
  {
    match reply
    case None => []
    case Some(content) =>
      match decode(Clean(content))
      case None => []
      case Some(entries) => entries
  }

  /** `int(result["codigo"])`: a number as it is, a text through `int()`; anything else raises. */
  function Code(v: Json): Option<int> {
    match v
    case Number(n) => Some(n)
    case Text(s) => ParseInt(s)
    case Other => None
  }

  datatype Update = Update(id: int, code: int)

  /**
   * The update an entry asks for (processing/async_deepseek_classifier.py:142-143):
   * only an object with both "id" and "codigo", a numeric id and a code
   * `int()` accepts; there is no check that the code lies in 1..11.
   */
  function Requested(e: Entry): (r: Option<Update>)
    ensures r.Some? ==> e.Object? && "id" in e.fields && "codigo" in e.fields
    ensures r.Some? ==> e.fields["id"] == Number(r.value.id) && Code(e.fields["codigo"]) == Some(r.value.code)
    ensures (e.Object? && "id" in e.fields && "codigo" in e.fields && e.fields["id"].Number? &&
             Code(e.fields["codigo"]).Some?) ==> r.Some?
  {
    match e
    case Object(fields) =>
      if "id" in fields && "codigo" in fields && fields["id"].Number? then
        match Code(fields["codigo"])
        case None => None
        case Some(code) => Some(Update(fields["id"].n, code))
      else None
    case _ => None
  }

  /** Two tables that differ at most in message types. */
  predicate SameButTypes(t: Tables, r: Tables) {
    r.users == t.users && r.nextUserId == t.nextUserId && r.nextMessageId == t.nextMessageId &&
    |r.messages| == |t.messages| &&
    forall k :: 0 <= k < |t.messages| ==> SameRow(t.messages[k], r.messages[k])
  }

  /** The same row, whatever its type. */
  predicate SameRow(a: Message, b: Message) {
    a.id == b.id && a.userId == b.userId && a.timestamp == b.timestamp && a.content == b.content
  }

  /** The update asked for by each result, in order. */
  function Requests(entries: seq<Entry>): (r: seq<Option<Update>>)
    ensures |r| == |entries| && forall i :: 0 <= i < |r| ==> r[i] == Requested(entries[i])
  {
    seq(|entries|, i requires 0 <= i < |entries| => Requested(entries[i]))
  }

  lemma RequestsConcat(a: seq<Entry>, b: seq<Entry>)
    ensures Requests(a + b) == Requests(a) + Requests(b)
  {
    assert forall i :: 0 <= i < |a + b| ==> Requests(a + b)[i] == (Requests(a) + Requests(b))[i];
  }

  /** One iteration of the loop at processing/async_deepseek_classifier.py:139-145. */
  function ApplyRequest(t: Tables, request: Option<Update>): (r: Tables)
    ensures request.None? ==> r == t
  {
    match request
    case None => t
    case Some(u) => UpdateType(t, u.id, u.code)
  }

  /** The requests applied in order, each committed on its own. */
  function ApplyRequests(t: Tables, requests: seq<Option<Update>>): (r: Tables)
    decreases |requests|
  {
    if requests == [] then t
    else
      var n := |requests| - 1;
      ApplyRequest(ApplyRequests(t, requests[..n]), requests[n])
  }

  /** The results of one reply, applied. */
  function ApplyAll(t: Tables, entries: seq<Entry>): (r: Tables)
  {
    ApplyRequests(t, Requests(entries))
  }

  /** The writes keep the tables well formed. */
  lemma {:induction false} ApplyRequestsWellFormed(t: Tables, requests: seq<Option<Update>>)
    requires WellFormed(t)
    ensures WellFormed(ApplyRequests(t, requests))
    decreases |requests|
  {
    if requests != [] {
      var n := |requests| - 1;
      ApplyRequestsWellFormed(t, requests[..n]);
      var mid := ApplyRequests(t, requests[..n]);
      if requests[n].Some? {
        UpdateTypeWellFormed(mid, requests[n].value.id, requests[n].value.code);
      }
    }
  }

  /** Applying one request changes at most the type of the rows with the requested id. */
  lemma ApplyRequestRows(t: Tables, request: Option<Update>)
    ensures SameButTypes(t, ApplyRequest(t, request))
    ensures forall k :: 0 <= k < |t.messages| && (request.None? || request.value.id != t.messages[k].id) ==>
      ApplyRequest(t, request).messages[k] == t.messages[k]
  {
  }

  /** Applying the requests changes nothing but message types: no row is added, removed or moved. */
  lemma {:induction false} ApplyRequestsRows(t: Tables, requests: seq<Option<Update>>)
    ensures SameButTypes(t, ApplyRequests(t, requests))
    decreases |requests|
  {
    if requests != [] {
      var n := |requests| - 1;
      var mid := ApplyRequests(t, requests[..n]);
      ApplyRequestsRows(t, requests[..n]);
      ApplyRequestRows(mid, requests[n]);
      var r := ApplyRequests(t, requests);
      forall k | 0 <= k < |t.messages| ensures SameRow(t.messages[k], r.messages[k]) {
        assert SameRow(t.messages[k], mid.messages[k]) && SameRow(mid.messages[k], r.messages[k]);
      }
    }
  }

  /** One more request is one more `ApplyRequest`. */
  lemma ApplyRequestsStep(t: Tables, requests: seq<Option<Update>>, i: nat)
    requires i < |requests|
    ensures ApplyRequests(t, requests[..i + 1]) == ApplyRequest(ApplyRequests(t, requests[..i]), requests[i])
  {
    assert requests[..i + 1][..i] == requests[..i];
  }

  lemma {:induction false} ApplyRequestsConcat(t: Tables, a: seq<Option<Update>>, b: seq<Option<Update>>)
    ensures ApplyRequests(t, a + b) == ApplyRequests(ApplyRequests(t, a), b)
    decreases |b|
  {
    if b == [] {
      assert a + b == a;
    } else {
      var n := |b| - 1;
      ConcatLast(a, b);
      ApplyRequestsConcat(t, a, b[..n]);
    }
  }

  lemma ConcatLast<T>(a: seq<T>, b: seq<T>)
    requires b != []
    ensures var ab := a + b;
      ab[..|ab| - 1] == a + b[..|b| - 1] && ab[|ab| - 1] == b[|b| - 1]
  {
  }

  /** Applying two replies' results one after the other is applying them together. */
  lemma ApplyAllConcat(t: Tables, a: seq<Entry>, b: seq<Entry>)
    ensures ApplyAll(t, a + b) == ApplyAll(ApplyAll(t, a), b)
  {
    RequestsConcat(a, b);
    ApplyRequestsConcat(t, Requests(a), Requests(b));
  }

  /**
   * The results the loop reaches: those before the first whose pass raises
   * out of it (processing/async_deepseek_classifier.py:140-149).
   */
  function Reached(entries: seq<Entry>): (r: seq<Entry>)
    ensures |r| <= |entries| && r == entries[..|r|]
    ensures forall i :: 0 <= i < |r| ==> !Aborts(r[i])
    ensures |r| < |entries| ==> Aborts(entries[|r|])
    decreases |entries|
  {
    if entries == [] || Aborts(entries[0]) then []
    else [entries[0]] + Reached(entries[1..])
  }

  /** The loop reaches exactly the results before the first aborting one. */
  lemma ReachedIs(entries: seq<Entry>, i: nat)
    requires i <= |entries|
    requires forall j :: 0 <= j < i ==> !Aborts(entries[j])
    requires i == |entries| || Aborts(entries[i])
    ensures Reached(entries) == entries[..i]
  {
    var r := Reached(entries);
    assert forall j :: 0 <= j < |r| ==> r[j] == entries[j];
    assert |r| == i;
  }

  /** Results all reached, followed by more: the loop goes on into the rest. */
  lemma ReachedConcat(a: seq<Entry>, b: seq<Entry>)
    requires Reached(a) == a
    ensures Reached(a + b) == a + Reached(b)
  {
    var rb := Reached(b);
    var ab := a + b;
    var i := |a| + |rb|;
    forall j | 0 <= j < i ensures !Aborts(ab[j]) {
      if j < |a| {
        assert ab[j] == Reached(a)[j];
      } else {
        assert ab[j] == rb[j - |a|];
      }
    }
    if i < |ab| {
      assert ab[i] == b[|rb|];
    }
    ReachedIs(ab, i);
    assert ab[..i] == a + rb;
  }

  /**
   * A result that cannot be applied and does not raise out of the loop (an
   * object with a missing key or a code `int()` rejects, a string or array
   * without both keys) is skipped: the updates before it stay and those
   * after it still run.
   */
  lemma SkippedEntry(t: Tables, before: seq<Entry>, e: Entry, after: seq<Entry>)
    requires Reached(before) == before && !Aborts(e) && Requested(e).None?
    ensures ApplyAll(t, Reached(before + [e] + after)) == ApplyAll(ApplyAll(t, before), Reached(after))
  {
    assert Reached([e]) == [e];
    ReachedConcat(before, [e]);
    ReachedConcat(before + [e], after);
    ApplyAllConcat(t, before + [e], Reached(after));
    ApplyAllConcat(t, before, [e]);
    var reqs := Requests([e]);
    assert reqs[..0] == [] && reqs[0] == None;
    assert ApplyRequests(ApplyAll(t, before), reqs) == ApplyAll(t, before);
  }

  /**
   * A result whose pass raises out of the loop (a number, boolean or null; a
   * string or array holding both keys) ends the batch: the updates before it
   * stay and none after it runs.
   */
  lemma AbortingEntry(t: Tables, before: seq<Entry>, e: Entry, after: seq<Entry>)
    requires Reached(before) == before && Aborts(e)
    ensures ApplyAll(t, Reached(before + [e] + after)) == ApplyAll(t, before)
  {
    var all := before + [e] + after;
    forall j | 0 <= j < |before| ensures !Aborts(all[j]) {
      assert all[j] == Reached(before)[j];
    }
    assert all[|before|] == e;
    ReachedIs(all, |before|);
    assert all[..|before|] == before;
  }

  /** `[{"id": 1, "codigo": 9}, 7, {"id": 2, "codigo": 3}]` updates message 1 only. */
  lemma NumberEndsBatch(t: Tables)
    ensures ApplyAll(t, Reached([Object(map["id" := Number(1), "codigo" := Number(9)]), Scalar,
                                 Object(map["id" := Number(2), "codigo" := Number(3)])]))
            == UpdateType(t, 1, 9)
  {
    var first := Object(map["id" := Number(1), "codigo" := Number(9)]);
    var entries := [first, Scalar, Object(map["id" := Number(2), "codigo" := Number(3)])];
    assert !Aborts(entries[0]) && Aborts(entries[1]);
    ReachedIs(entries, 1);
    assert entries[..1] == [first];
    assert "id" in first.fields && "codigo" in first.fields && first.fields["id"] == Number(1);
    assert Requested(first) == Some(Update(1, 9));
    var reqs := Requests([first]);
    assert reqs[..0] == [] && reqs[0] == Some(Update(1, 9));
    assert ApplyRequests(t, reqs) == ApplyRequest(ApplyRequests(t, []), Some(Update(1, 9)));
  }

  /** A code with leading zeros is read in base 10 without them: "09" is 9. */
  lemma LeadingZeroCode(n: nat)
    ensures Code(Text("0" + NatToString(n))) == Some(n)
  {
    var d := NatToString(n);
    DigitsLeadingZero(d);
    ParseDigits("0" + d);
    NatToStringValue(n);
  }

  lemma {:induction false} DigitsLeadingZero(d: string)
    requires AllDigits(d)
    ensures AllDigits("0" + d) && DigitsValue("0" + d) == DigitsValue(d)
    decreases |d|
  {
    var s := "0" + d;
    if d != [] {
      var n := |d| - 1;
      DigitsLeadingZero(d[..n]);
      assert s[..|s| - 1] == "0" + d[..n];
      assert s[|s| - 1] == d[n];
    } else {
      assert s[..0] == [];
    }
  }

  /** A message no applicable result names keeps its type. */
  lemma {:induction false} UnnamedRowKeepsType(t: Tables, requests: seq<Option<Update>>, k: nat)
    requires k < |t.messages|
    requires forall j :: 0 <= j < |requests| && requests[j].Some? ==> requests[j].value.id != t.messages[k].id
    ensures k < |ApplyRequests(t, requests).messages|
    ensures ApplyRequests(t, requests).messages[k] == t.messages[k]
    decreases |requests|
  {
    ApplyRequestsRows(t, requests);
    if requests != [] {
      var n := |requests| - 1;
      var mid := ApplyRequests(t, requests[..n]);
      UnnamedRowKeepsType(t, requests[..n], k);
      ApplyRequestRows(mid, requests[n]);
    }
  }

  // ---------------------------------------------------------------------------
  // The run

  /** What one worker writes back: nothing for an empty batch. */
  function BatchResults(batch: seq<Item>, respond: seq<Item> -> Option<string>,
                        decode: string -> Option<seq<Entry>>): seq<Entry> {
    if batch == [] then [] else ClassifyBatch(respond(batch), decode)
  }

  /** The results every worker's loop reaches, in batch order. */
  function AllResults(batches: seq<seq<Item>>, respond: seq<Item> -> Option<string>,
                      decode: string -> Option<seq<Entry>>): seq<Entry>
    decreases |batches|
  {
    if batches == [] then []
    else
      var n := |batches| - 1;
      AllResults(batches[..n], respond, decode) + Reached(BatchResults(batches[n], respond, decode))
  }

  lemma AllResultsStep(batches: seq<seq<Item>>, respond: seq<Item> -> Option<string>,
                       decode: string -> Option<seq<Entry>>, i: nat)
    requires i < |batches|
    ensures AllResults(batches[..i + 1], respond, decode) ==
      AllResults(batches[..i], respond, decode) + Reached(BatchResults(batches[i], respond, decode))
  {
    assert batches[..i + 1][..i] == batches[..i];
  }

  /** A failed call, or a reply that does not decode, writes nothing. */
  lemma FailedCallWritesNothing(t: Tables, batch: seq<Item>, respond: seq<Item> -> Option<string>,
                                decode: string -> Option<seq<Entry>>)
    requires respond(batch).None? || decode(Clean(respond(batch).value)).None?
    ensures ApplyAll(t, Reached(BatchResults(batch, respond, decode))) == t
  {
  }

  /**
   * `process_batch_worker(batch)` (processing/async_deepseek_classifier.py:118-153):
   * the results are applied one by one up to the first whose pass raises out
   * of the loop; `setup_database` runs only when there are results.
   */
  method ProcessBatch(db: Database, batch: seq<Item>, respond: seq<Item> -> Option<string>,
                      decode: string -> Option<seq<Entry>>)
    requires db.Valid()
    modifies db
    ensures db.Valid()
    ensures db.hasTables == (old(db.hasTables) || BatchResults(batch, respond, decode) != [])
    ensures db.Snapshot() == ApplyAll(old(db.Snapshot()), Reached(BatchResults(batch, respond, decode)))
  {
    if batch == [] {
      return;
    }
    var results := ClassifyBatch(respond(batch), decode);
    if results == [] {
      return;
    }
    db.Setup();
    var _ := ApplyResults(db, results);
  }

  /**
   * The loop at processing/async_deepseek_classifier.py:139-149: each
   * applicable result is one committed `update_message_type`, until a pass
   * raises out of the loop; `aborted` tells whether one did.
   */
  method ApplyResults(db: Database, results: seq<Entry>) returns (aborted: bool)
    requires db.Valid() && db.hasTables
    modifies db
    ensures db.Valid() && db.hasTables
    ensures aborted <==> Reached(results) != results
    ensures db.Snapshot() == ApplyAll(old(db.Snapshot()), Reached(results))
  {
    var i;
    i, aborted := ApplyUntilRaise(db, results);
    ReachedIs(results, i);
    assert !aborted ==> results[..i] == results;
  }

  /** The loop itself: it stops after `i` passes, `aborted` when pass `i` raised. */
  method ApplyUntilRaise(db: Database, results: seq<Entry>) returns (i: nat, aborted: bool)
    requires db.Valid() && db.hasTables
    modifies db
    ensures db.Valid() && db.hasTables
    ensures i <= |results| && forall j :: 0 <= j < i ==> !Aborts(results[j])
    ensures aborted <==> i < |results|
    ensures aborted ==> Aborts(results[i])
    ensures db.Snapshot() == ApplyAll(old(db.Snapshot()), results[..i])
  {
    ghost var start := db.Snapshot();
    i := 0;
    while i < |results|
      invariant 0 <= i <= |results|
      invariant db.Valid() && db.hasTables
      invariant forall j :: 0 <= j < i ==> !Aborts(results[j])
      invariant db.Snapshot() == ApplyAll(start, results[..i])
    {
      var raised := ApplyNext(db, start, results, i);
      if raised {
        return i, true;
      }
      assert forall j :: 0 <= j < i + 1 ==> !Aborts(results[j]) by {
        assert !Aborts(results[i]);
      }
      i := i + 1;
    }
    return i, false;
  }

  /** Pass `i` of that loop, stated against the writes of the passes before it. */
  method ApplyNext(db: Database, ghost start: Tables, results: seq<Entry>, i: nat) returns (raised: bool)
    requires db.Valid() && db.hasTables
    requires i < |results| && db.Snapshot() == ApplyAll(start, results[..i])
    modifies db
    ensures db.Valid() && db.hasTables
    ensures raised == Aborts(results[i])
    ensures db.Snapshot() == if raised then ApplyAll(start, results[..i]) else ApplyAll(start, results[..i + 1])
  {
    ApplyAllStep(start, results, i);
    raised := ApplyResult(db, results[i]);
  }

  /** One more result is one more pass of the loop. */
  lemma ApplyAllStep(t: Tables, results: seq<Entry>, i: nat)
    requires i < |results|
    ensures ApplyAll(t, results[..i + 1]) == ApplyRequest(ApplyAll(t, results[..i]), Requested(results[i]))
    ensures Aborts(results[i]) ==> ApplyRequest(ApplyAll(t, results[..i]), Requested(results[i])) == ApplyAll(t, results[..i])
  {
    var requests := Requests(results[..i + 1]);
    assert requests[..i] == Requests(results[..i]);
    assert requests[i] == Requested(results[i]);
  }

  /**
   * One pass of the `try` block at processing/async_deepseek_classifier.py:141-145:
   * an applicable result is written; `raised` tells whether the pass leaves
   * the loop.
   */
  method ApplyResult(db: Database, entry: Entry) returns (raised: bool)
    requires db.Valid() && db.hasTables
    modifies db
    ensures db.Valid() && db.hasTables
    ensures raised == Aborts(entry)
    ensures db.Snapshot() == ApplyRequest(old(db.Snapshot()), Requested(entry))
  {
    if Aborts(entry) {
      return true;
    }
    var request := Requested(entry);
    if request.Some? {
      var _ := db.UpdateMessageType(request.value.id, request.value.code);
    }
    return false;
  }

  /** The batches a run sends: the fetched rows, formatted, in chunks of 25. */
  function Batches(messages: seq<Message>): (r: seq<seq<Item>>) {
    ChunkList(Format(Limited(UntaggedRows(messages), FetchLimit)), BatchSize)
  }

  /** At most 273 rows are fetched, so a run sends at most 11 batches of at most 25 items. */
  lemma BatchBounds(messages: seq<Message>)
    ensures |Batches(messages)| <= 11
    ensures forall i :: 0 <= i < |Batches(messages)| ==> 0 < |Batches(messages)[i]| <= BatchSize
  {
    var n := |Format(Limited(UntaggedRows(messages), FetchLimit))|;
    assert n <= FetchLimit;
    ChunkCount(Format(Limited(UntaggedRows(messages), FetchLimit)), BatchSize);
  }

  /**
   * The script's main block (processing/async_deepseek_classifier.py:161-194):
   * fetch, format, chunk, and run the workers; the workers' writes are taken
   * in batch order, each worker's up to the result that ends its loop.
   */
  method RunClassifier(db: Database, respond: seq<Item> -> Option<string>,
                       decode: string -> Option<seq<Entry>>)
    requires db.Valid()
    modifies db
    ensures db.Valid() && db.hasTables
    ensures db.Snapshot() == ApplyAll(old(db.Snapshot()), AllResults(Batches(old(db.messages)), respond, decode))
  {
    db.Setup();
    var raw := db.GetUntaggedMessages(FetchLimit);
    ghost var start := db.Snapshot();
    var batches := ChunkList(Format(raw), BatchSize);
    assert batches == Batches(start.messages);
    if raw == [] {
      return;
    }
    var i := 0;
    while i < |batches|
      invariant 0 <= i <= |batches|
      invariant db.Valid() && db.hasTables
      invariant db.Snapshot() == ApplyAll(start, AllResults(batches[..i], respond, decode))
    {
      AllResultsStep(batches, respond, decode, i);
      ghost var before := AllResults(batches[..i], respond, decode);
      ProcessBatch(db, batches[i], respond, decode);
      ApplyAllConcat(start, before, Reached(BatchResults(batches[i], respond, decode)));
      i := i + 1;
    }
    assert batches[..i] == batches;
  }
}
