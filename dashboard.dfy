/**
 * The dashboard helpers of app.py: the category label of a stored type, the
 * decoding of the page's query parameters, the restoration of the filter
 * selection from them when a session starts, the parameters written back
 * after every rerun, and the row filter.
 */
module Dashboard {
  import opened Common
  import opened Strings
  import opened Calendar

  // ---------------------------------------------------------------------------
  // Labels

  const UntaggedLabel := "Untagged"
  const TypePrefix := "Type "

  /** `TYPE_MAPPING` (app.py:10-22). */
  function MappedLabel(code: int): Option<string> {
    if code == 1 then Some("Alguém já fez prova com o professor X?")
    else if code == 2 then Some("Pedindo contato de alguém")
    else if code == 3 then Some("Tem alguém em tal hospital?")
    else if code == 4 then Some("Figurinas / Stickers")
    else if code == 5 then Some("Foto / Vídeo / Áudio")
    else if code == 6 then Some("Conversas gerais")
    else if code == 7 then Some("Anúncios de ligas")
    else if code == 8 then Some("Anúncios de festas")
    else if code == 9 then Some("Venda/Compra de ingressos")
    else if code == 10 then Some("Propaganda de cursos e materiais")
    else if code == 11 then Some("Anúncios gerais")
    else None
  }

  /** `get_label` (app.py:46-48). */
  function TypeLabel(code: int): string {
    if code == -1 then UntaggedLabel
    else match MappedLabel(code)
      case Some(name) => name
      case None => TypePrefix + IntToString(code)
  }

  /** The `type_raw` column: a null type is filled with -1 (app.py:45). */
  function RawType(stored: Option<int>): int {
    if stored.None? then -1 else stored.value
  }

  /** The label a message row shows (app.py:45-49). */
  function LabelOf(stored: Option<int>): string {
    TypeLabel(RawType(stored))
  }

  /** Exactly the eleven mapped codes have a mapped label; no such label looks like the other two kinds. */
  lemma MappedLabelShape(code: int)
    ensures MappedLabel(code).Some? <==> 1 <= code <= 11
    ensures MappedLabel(code).Some? ==>
      MappedLabel(code).value != UntaggedLabel && !StartsWith(MappedLabel(code).value, TypePrefix)
  {
    if MappedLabel(code).Some? {
      MappedLabelKey(code);
      var name := MappedLabel(code).value;
      assert name[0] != 'T' || name[1] != 'y';
      assert name[0] != 'U';
    }
  }

  /** No two mapped codes share a label. */
  lemma MappedLabelInjective(a: int, b: int)
    requires MappedLabel(a).Some? && MappedLabel(a) == MappedLabel(b)
    ensures a == b
  {
    MappedLabelShape(a);
    MappedLabelShape(b);
    MappedLabelKey(a);
    MappedLabelKey(b);
  }

  /** The length and first two characters of each mapped label, which tell the eleven apart. */
  function LabelKey(code: int): (int, char, char) {
    if code == 1 then (38, 'A', 'l')
    else if code == 2 then (25, 'P', 'e')
    else if code == 3 then (27, 'T', 'e')
    else if code == 4 then (20, 'F', 'i')
    else if code == 5 then (20, 'F', 'o')
    else if code == 6 then (16, 'C', 'o')
    else if code == 7 then (17, 'A', 'n')
    else if code == 8 then (18, 'A', 'n')
    else if code == 9 then (25, 'V', 'e')
    else if code == 10 then (32, 'P', 'r')
    else (15, 'A', 'n')
  }

  lemma MappedLabelKey(code: int)
    requires MappedLabel(code).Some?
    ensures var name := MappedLabel(code).value;
      |name| >= 2 && (|name|, name[0], name[1]) == LabelKey(code)
  {
    if code == 1 {
    } else if code == 2 {
    } else if code == 3 {
    } else if code == 4 {
    } else if code == 5 {
    } else if code == 6 {
    } else if code == 7 {
    } else if code == 8 {
    } else if code == 9 {
    } else if code == 10 {
    }
  }

  /**
   * The three kinds of label (app.py:47-48): "Untagged" exactly for -1, the
   * mapping's label exactly for 1..11, and otherwise "Type " followed by the
   * decimal code.
   */
  lemma TypeLabelCases(code: int)
    ensures TypeLabel(code) == UntaggedLabel <==> code == -1
    ensures 1 <= code <= 11 ==> MappedLabel(code).Some? && TypeLabel(code) == MappedLabel(code).value
    ensures StartsWith(TypeLabel(code), TypePrefix) <==> code != -1 && !(1 <= code <= 11)
    ensures code != -1 && !(1 <= code <= 11) ==> TypeLabel(code)[|TypePrefix|..] == IntToString(code)
  {
    MappedLabelShape(code);
    var name := TypeLabel(code);
    if code != -1 && !(1 <= code <= 11) {
      assert name == TypePrefix + IntToString(code);
      assert name[..|TypePrefix|] == TypePrefix;
      assert name[0] == 'T' && name[1] == 'y';
    } else if code == -1 {
      assert name[0] == 'U';
    }
  }

  /** Different codes get different labels: filtering by label is filtering by code. */
  lemma TypeLabelInjective(a: int, b: int)
    requires TypeLabel(a) == TypeLabel(b)
    ensures a == b
  {
    TypeLabelCases(a);
    TypeLabelCases(b);
    if 1 <= a <= 11 && 1 <= b <= 11 {
      MappedLabelInjective(a, b);
    } else if a != -1 && !(1 <= a <= 11) && b != -1 && !(1 <= b <= 11) {
      IntToStringInjective(a, b);
    }
  }

  /**
   * A row shows a given code's label exactly when its filled type is that
   * code; a null type and a stored -1 are therefore the same "Untagged" row.
   */
  lemma LabelSelectsCode(stored: Option<int>, code: int)
    ensures LabelOf(stored) == TypeLabel(code) <==> RawType(stored) == code
    ensures LabelOf(None) == LabelOf(Some(-1)) == UntaggedLabel
  {
    if LabelOf(stored) == TypeLabel(code) {
      TypeLabelInjective(RawType(stored), code);
    }
  }

  // ---------------------------------------------------------------------------
  // Query parameters

  /** A query parameter's value as the script reads it: one string, or a list of strings. */
  datatype QueryValue = Single(text: string) | Many(items: seq<string>)

  type Params = map<string, QueryValue>

  /** `get_param_list` (app.py:69-72). */
  function ParamList(params: Params, key: string): (r: seq<string>)
    ensures key !in params ==> r == []
    ensures key in params && params[key].Single? ==> r == [params[key].text]
    ensures key in params && params[key].Many? ==> r == params[key].items
  {
    if key !in params then []
    else match params[key]
      case Single(text) => [text]
      case Many(items) => items
  }

  /** `s.lower() == 'true'`: four characters, each one of the letters of "true" in either case. */
  predicate LowerIsTrue(s: string) {
    |s| == 4 && (s[0] == 't' || s[0] == 'T') && (s[1] == 'r' || s[1] == 'R') &&
    (s[2] == 'u' || s[2] == 'U') && (s[3] == 'e' || s[3] == 'E')
  }

  /**
   * `get_param_bool` (app.py:74-76). `None` is the AttributeError raised
   * when the value is a list, which has no `lower`. Streamlit's
   * `st.query_params[key]` returns a string, never a list, so this branch
   * exists only in the list reading of `Many` that ParamList adopts.
   */
  function ParamBool(params: Params, key: string, default: bool): (r: Option<bool>)
    ensures key !in params ==> r == Some(default)
    ensures key in params ==> (r.Some? <==> params[key].Single?)
    ensures key in params && params[key].Single? ==> r == Some(LowerIsTrue(params[key].text))
  {
    if key !in params then Some(default)
    else match params[key]
      case Single(text) => Some(LowerIsTrue(text))
      case Many(_) => None
  }

  /**
   * `get_param_date` (app.py:78-81): a text that `strptime(..., '%Y-%m-%d')`
   * refuses gives the default. `None` is the TypeError raised for a list,
   * which the `except ValueError` does not catch. As for ParamBool, a real
   * `st.query_params[key]` is a string, so only the list reading of `Many`
   * reaches this branch.
   */
  function ParamDate(params: Params, key: string, default: Date): (r: Option<Date>)
    ensures key !in params ==> r == Some(default)
    ensures key in params ==> (r.Some? <==> params[key].Single?)
    ensures key in params && params[key].Single? && ParseDate(params[key].text).Some? ==>
      r == ParseDate(params[key].text)
    ensures key in params && params[key].Single? && ParseDate(params[key].text).None? ==>
      r == Some(default)
  {
    if key !in params then Some(default)
    else match params[key]
      case Single(text) => (match ParseDate(text) case Some(d) => Some(d) case None => Some(default))
      case Many(_) => None
  }

  /** `str(b).lower()` (app.py:167, 170-171). */
  function BoolText(b: bool): string {
    if b then "true" else "false"
  }

  lemma BoolTextRoundTrip(b: bool)
    ensures LowerIsTrue(BoolText(b)) == b
  {
  }

  // ---------------------------------------------------------------------------
  // Restoring the selection (app.py:94-118)

  /** What the data offers: the date span of the messages and the sorted distinct users and labels (app.py:84-91). */
  datatype Defaults = Defaults(minDate: Date, maxDate: Date, users: seq<string>, types: seq<string>)

  /** The session keys the script keeps. */
  datatype Session = Session(
    dateEnabled: bool, start: Date, end: Date,
    allUsers: bool, users: seq<string>,
    allTypes: bool, types: seq<string>)

  /** app.py:107-110 and 115-118: the full list when "all" is checked or the URL list is empty. */
  function RestoredList(all: bool, fromUrl: seq<string>, full: seq<string>): (r: seq<string>)
    ensures all ==> r == full
    ensures !all && fromUrl != [] ==> r == fromUrl
    ensures !all && fromUrl == [] ==> r == full
  {
    if all then full else if fromUrl != [] then fromUrl else full
  }

  /** The whole restoration, or `None` when one of its reads raises. */
  function Restored(params: Params, d: Defaults): Option<Session> {
    var dateEnabled := ParamBool(params, "date_enabled", false);
    var start := ParamDate(params, "start", d.minDate);
    var end := ParamDate(params, "end", d.maxDate);
    var allUsers := ParamBool(params, "all_users", true);
    var allTypes := ParamBool(params, "all_types", true);
    if dateEnabled.None? || start.None? || end.None? || allUsers.None? || allTypes.None? then None
    else
      Some(Session(
        dateEnabled.value, start.value, end.value,
        allUsers.value, RestoredList(allUsers.value, ParamList(params, "users"), d.users),
        allTypes.value, RestoredList(allTypes.value, ParamList(params, "types"), d.types)))
  }

  /**
   * Restoration fails exactly when one of the flag or date keys holds a
   * list. Under Streamlit's string-valued `st.query_params` no key does, so
   * there restoration never fails this way.
   */
  lemma RestoredFails(params: Params, d: Defaults)
    ensures Restored(params, d).None? <==>
      exists key :: key in ["date_enabled", "start", "end", "all_users", "all_types"] &&
        key in params && params[key].Many?
  {
    var keys := ["date_enabled", "start", "end", "all_users", "all_types"];
    if Restored(params, d).None? {
      var key :| key in keys && key in params && params[key].Many?;
    }
  }

  /** An empty URL restores the defaults: the whole span, and everything selected. */
  lemma EmptyUrlRestoresDefaults(d: Defaults)
    ensures Restored(map[], d) == Some(Session(false, d.minDate, d.maxDate, true, d.users, true, d.types))
  {
  }

  // ---------------------------------------------------------------------------
  // The sidebar values and the URL written back

  /**
   * The values the sidebar settles on in one rerun (app.py:127-161): the date
   * range in force, each "select all" checkbox, and the selected lists.
   */
  datatype View = View(
    dateEnabled: bool, start: Date, end: Date,
    allUsers: bool, users: seq<string>,
    allTypes: bool, types: seq<string>)

  /**
   * The date range in force (app.py:129-139): the picked pair, a single
   * picked day twice, or the data's whole span when the date filter is off.
   * `None` is the IndexError of an empty pick.
   */
  function RangeOf(enabled: bool, picked: seq<Date>, d: Defaults): (r: Option<(Date, Date)>)
    ensures !enabled ==> r == Some((d.minDate, d.maxDate))
    ensures enabled ==> (r.None? <==> picked == [])
    ensures enabled && |picked| == 2 ==> r == Some((picked[0], picked[1]))
    ensures enabled && picked != [] && |picked| != 2 ==> r == Some((picked[0], picked[0]))
  {
    if !enabled then Some((d.minDate, d.maxDate))
    else if |picked| == 2 then Some((picked[0], picked[1]))
    else if picked == [] then None
    else Some((picked[0], picked[0]))
  }

  /** The multiselect default (app.py:150, 160): earlier selections still on offer, in their order. */
  function KeepAvailable(previous: seq<string>, available: seq<string>): (r: seq<string>)
    ensures |r| <= |previous|
    decreases |previous|
  {
    if previous == [] then []
    else
      var n := |previous| - 1;
      KeepAvailable(previous[..n], available) + (if previous[n] in available then [previous[n]] else [])
  }

  /** An item is kept exactly when it was selected and is still available. */
  lemma {:induction false} KeepAvailableMembers(previous: seq<string>, available: seq<string>, x: string)
    ensures x in KeepAvailable(previous, available) <==> x in previous && x in available
    decreases |previous|
  {
    if previous != [] {
      var n := |previous| - 1;
      KeepAvailableMembers(previous[..n], available, x);
      assert previous == previous[..n] + [previous[n]];
    }
  }

  /** Kept items stay in their earlier order: the result is the input with some items dropped. */
  lemma {:induction false} KeepAvailableConcat(a: seq<string>, b: seq<string>, available: seq<string>)
    ensures KeepAvailable(a + b, available) == KeepAvailable(a, available) + KeepAvailable(b, available)
    decreases |b|
  {
    if b == [] {
      assert a + b == a;
    } else {
      var n := |b| - 1;
      assert (a + b)[..|a + b| - 1] == a + b[..n];
      KeepAvailableConcat(a, b[..n], available);
    }
  }

  /** A selection made only of available items is kept whole. */
  lemma {:induction false} KeepAvailableAll(previous: seq<string>, available: seq<string>)
    requires forall i :: 0 <= i < |previous| ==> previous[i] in available
    ensures KeepAvailable(previous, available) == previous
    decreases |previous|
  {
    if previous != [] {
      var n := |previous| - 1;
      KeepAvailableAll(previous[..n], available);
      assert previous[..n] + [previous[n]] == previous;
    }
  }

  /** Filtering the default again changes nothing. */
  lemma KeepAvailableIdempotent(previous: seq<string>, available: seq<string>)
    ensures KeepAvailable(KeepAvailable(previous, available), available) == KeepAvailable(previous, available)
  {
    var kept := KeepAvailable(previous, available);
    forall i | 0 <= i < |kept| ensures kept[i] in available {
      KeepAvailableMembers(previous, available, kept[i]);
    }
    KeepAvailableAll(kept, available);
  }

  /** `current_params` (app.py:166-179): the lists are written only when their "select all" is off. */
  function UrlParams(v: View): (r: Params)
    requires ValidDate(v.start) && ValidDate(v.end)
    ensures "users" in r <==> !v.allUsers
    ensures "types" in r <==> !v.allTypes
    ensures !v.allUsers ==> r["users"] == Many(v.users)
    ensures !v.allTypes ==> r["types"] == Many(v.types)
    ensures r.Keys >= {"date_enabled", "start", "end", "all_users", "all_types"}
  {
    var base := map[
      "date_enabled" := Single(BoolText(v.dateEnabled)),
      "start" := Single(FormatDate(v.start)),
      "end" := Single(FormatDate(v.end)),
      "all_users" := Single(BoolText(v.allUsers)),
      "all_types" := Single(BoolText(v.allTypes))];
    var withUsers := if v.allUsers then base else base["users" := Many(v.users)];
    if v.allTypes then withUsers else withUsers["types" := Many(v.types)]
  }

  /**
   * The URL written after a rerun restores that rerun's flags and dates, and
   * its lists unless one was emptied with its "select all" off.
   */
  lemma RestoreAfterSync(v: View, d: Defaults)
    requires ValidDate(v.start) && ValidDate(v.end)
    ensures Restored(UrlParams(v), d) == Some(Session(
      v.dateEnabled, v.start, v.end,
      v.allUsers, if v.allUsers || v.users == [] then d.users else v.users,
      v.allTypes, if v.allTypes || v.types == [] then d.types else v.types))
  {
    var p := UrlParams(v);
    SyncedFlags(v);
    SyncedDates(v, d);
    assert ParamList(p, "users") == (if v.allUsers then [] else v.users);
    assert ParamList(p, "types") == (if v.allTypes then [] else v.types);
  }

  /** The three flags read back from the written URL are the rerun's. */
  lemma SyncedFlags(v: View)
    requires ValidDate(v.start) && ValidDate(v.end)
    ensures ParamBool(UrlParams(v), "date_enabled", false) == Some(v.dateEnabled)
    ensures ParamBool(UrlParams(v), "all_users", true) == Some(v.allUsers)
    ensures ParamBool(UrlParams(v), "all_types", true) == Some(v.allTypes)
  {
    var p := UrlParams(v);
    BoolTextRoundTrip(v.dateEnabled);
    BoolTextRoundTrip(v.allUsers);
    BoolTextRoundTrip(v.allTypes);
    assert p["date_enabled"] == Single(BoolText(v.dateEnabled));
    assert p["all_users"] == Single(BoolText(v.allUsers));
    assert p["all_types"] == Single(BoolText(v.allTypes));
  }

  /** Both dates read back from the written URL are the rerun's. */
  lemma SyncedDates(v: View, d: Defaults)
    requires ValidDate(v.start) && ValidDate(v.end)
    ensures ParamDate(UrlParams(v), "start", d.minDate) == Some(v.start)
    ensures ParamDate(UrlParams(v), "end", d.maxDate) == Some(v.end)
  {
    var p := UrlParams(v);
    assert p["start"] == Single(FormatDate(v.start));
    assert p["end"] == Single(FormatDate(v.end));
    WrittenDate(p, "start", v.start, d.minDate);
    WrittenDate(p, "end", v.end, d.maxDate);
  }

  lemma WrittenDate(p: Params, key: string, date: Date, default: Date)
    requires ValidDate(date) && key in p && p[key] == Single(FormatDate(date))
    ensures ParamDate(p, key, default) == Some(date)
  {
    DateRoundTrip(date);
  }

  /**
   * A deliberately emptied user list does not survive the URL: a new session
   * comes back with every user selected.
   */
  lemma EmptiedUsersComeBackFull(v: View, d: Defaults)
    requires ValidDate(v.start) && ValidDate(v.end)
    requires !v.allUsers && v.users == [] && d.users != []
    ensures Restored(UrlParams(v), d).Some?
    ensures Restored(UrlParams(v), d).value.users == d.users != v.users
  {
    RestoreAfterSync(v, d);
  }

  // ---------------------------------------------------------------------------
  // The session and the URL as state

  /** The per-browser state the script reads and writes: `st.session_state` and `st.query_params`. */
  class Page {
    var initialized: bool
    var session: Session
    var query: Params

    /** A new browser session opened on a URL. */
    constructor(query: Params)
      ensures !initialized && this.query == query
    {
      initialized := false;
      session := Session(false, Date(1, 1, 1), Date(1, 1, 1), true, [], true, []);
      this.query := query;
    }

    /**
     * app.py:94-118: the first rerun of a session marks it initialized and
     * fills the keys one by one from the URL. `ok` is false when a read raises;
     * the keys written before the exception stay.
     */
    method RestoreFromUrl(d: Defaults) returns (ok: bool)
      modifies this
      ensures initialized && query == old(query)
      ensures old(initialized) ==> ok && session == old(session)
      ensures !old(initialized) ==> (ok <==> Restored(query, d).Some?)
      ensures !old(initialized) && ok ==> session == Restored(query, d).value
    {
      if initialized {
        return true;
      }
      initialized := true;
      var dateEnabled := ParamBool(query, "date_enabled", false);
      if dateEnabled.None? {
        return false;
      }
      session := session.(dateEnabled := dateEnabled.value);
      var start := ParamDate(query, "start", d.minDate);
      if start.None? {
        return false;
      }
      session := session.(start := start.value);
      var end := ParamDate(query, "end", d.maxDate);
      if end.None? {
        return false;
      }
      session := session.(end := end.value);
      var allUsers := ParamBool(query, "all_users", true);
      if allUsers.None? {
        return false;
      }
      session := session.(allUsers := allUsers.value);
      var urlUsers := ParamList(query, "users");
      session := session.(users := if allUsers.value then d.users else if urlUsers != [] then urlUsers else d.users);
      var allTypes := ParamBool(query, "all_types", true);
      if allTypes.None? {
        return false;
      }
      session := session.(allTypes := allTypes.value);
      var urlTypes := ParamList(query, "types");
      session := session.(types := if allTypes.value then d.types else if urlTypes != [] then urlTypes else d.types);
      ok := true;
    }

    /** app.py:181-182: the old parameters are cleared and the rerun's values written. */
    method SyncUrl(v: View)
      requires ValidDate(v.start) && ValidDate(v.end)
      modifies this
      ensures query == UrlParams(v)
      ensures initialized == old(initialized) && session == old(session)
    {
      query := map[];
      query := query + UrlParams(v);
    }
  }

  // ---------------------------------------------------------------------------
  // The filter (app.py:187-193)

  /** One dashboard row: the sender's handle, the message's calendar day and its label. */
  datatype Row = Row(user: string, date: Date, category: string)

  /** The filter in force: the date range and the selected users and labels. */
  datatype Window = Window(start: Date, end: Date, users: seq<string>, types: seq<string>)

  /** The mask: start <= day <= end, a selected user and a selected label. */
  predicate Shown(row: Row, w: Window) {
    !DateBefore(row.date, w.start) && !DateBefore(w.end, row.date) &&
    row.user in w.users && row.category in w.types
  }

  /** `df.loc[mask]`: the shown rows, in their order. */
  function Filter(rows: seq<Row>, w: Window): (r: seq<Row>)
    ensures |r| <= |rows|
    decreases |rows|
  {
    if rows == [] then []
    else
      var n := |rows| - 1;
      Filter(rows[..n], w) + (if Shown(rows[n], w) then [rows[n]] else [])
  }

  /** A row is in the filtered table exactly when it is a row the mask accepts. */
  lemma {:induction false} FilterMembers(rows: seq<Row>, w: Window, row: Row)
    ensures row in Filter(rows, w) <==> row in rows && Shown(row, w)
    decreases |rows|
  {
    if rows != [] {
      var n := |rows| - 1;
      FilterMembers(rows[..n], w, row);
      assert rows == rows[..n] + [rows[n]];
    }
  }

  /** Filtering keeps the table's order: the filter of a concatenation is the concatenation of the filters. */
  lemma {:induction false} FilterConcat(a: seq<Row>, b: seq<Row>, w: Window)
    ensures Filter(a + b, w) == Filter(a, w) + Filter(b, w)
    decreases |b|
  {
    if b == [] {
      assert a + b == a;
    } else {
      var n := |b| - 1;
      assert (a + b)[..|a + b| - 1] == a + b[..n];
      FilterConcat(a, b[..n], w);
    }
  }

  /** When every row lies in the window, nothing is hidden (the default view of app.py:139, 147, 158). */
  lemma {:induction false} FilterKeepsAll(rows: seq<Row>, w: Window)
    requires forall i :: 0 <= i < |rows| ==> Shown(rows[i], w)
    ensures Filter(rows, w) == rows
    decreases |rows|
  {
    if rows != [] {
      var n := |rows| - 1;
      FilterKeepsAll(rows[..n], w);
      assert rows[..n] + [rows[n]] == rows;
    }
  }

  /** Selecting one label keeps exactly the rows of that category. */
  lemma SingleLabelWindow(stored: Option<int>, user: string, date: Date, code: int, w: Window)
    requires w.types == [TypeLabel(code)]
    ensures Shown(Row(user, date, LabelOf(stored)), w) <==>
      !DateBefore(date, w.start) && !DateBefore(w.end, date) && user in w.users && RawType(stored) == code
  {
    LabelSelectsCode(stored, code);
  }
}
