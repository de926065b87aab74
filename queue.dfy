/** The queue view both pages draw from a live snapshot of `patients`: the display
    fallbacks of `renderRow`, the status filter and text search of `renderQueue`, and
    the `tokenNumber` order `attachListener` sorts snapshots into. The two pages carry
    identical copies of this code. */
module Queue {
  import opened Wrappers
  import opened Text
  import opened Token
  import opened Store
  import opened Sorting

  /** One `[key, item]` pair of `Object.entries` over the `patients` snapshot. */
  type Entry = (Key, Patient)

  /** `item.tokenNumber || 0`. */
  function TokenOrZero(p: Patient): nat {
    p.tokenNumber.GetOr(0)
  }

  /** `item.tokenLabel || formatToken(item.tokenNumber || 0)`: the stored label unless
      it is missing or empty. */
  function DisplayToken(p: Patient): string {
    if p.tokenLabel.Some? && p.tokenLabel.value != "" then p.tokenLabel.value
    else FormatToken(TokenOrZero(p))
  }

  /** `item.status || 'waiting'`. */
  function DisplayStatus(p: Patient): Status {
    p.status.GetOr(Waiting)
  }

  /** What a record is displayed as: the stored label when there is one, otherwise the
      formatted token number; the stored status, otherwise `waiting`. */
  lemma DisplayFallbacks(p: Patient)
    ensures p.tokenLabel.Some? && p.tokenLabel.value != "" ==> DisplayToken(p) == p.tokenLabel.value
    ensures (p.tokenLabel == None || p.tokenLabel == Some("")) ==>
              DisplayToken(p) == FormatToken(TokenOrZero(p))
              && LabelNumber(DisplayToken(p)) == Some(TokenOrZero(p))
    ensures p.status == None ==> DisplayStatus(p) == Waiting
    ensures p.status.Some? ==> DisplayStatus(p) == p.status.value
  {
    LabelNumberOfFormatToken(TokenOrZero(p));
  }

  /** The cells of one table row, as `renderRow` fills them. */
  datatype Row = Row(key: Key, token: string, name: string, age: string, contact: string,
                     reason: string, status: string)

  function RenderRow(e: Entry): Row {
    var p := e.1;
    Row(e.0, DisplayToken(p), p.name.GetOr(""), p.age.GetOr(""), p.contact.GetOr(""),
        p.reason.GetOr(""), StatusName(DisplayStatus(p)))
  }

  function RenderRows(es: seq<Entry>): (rows: seq<Row>)
    ensures |rows| == |es| && forall i :: 0 <= i < |es| ==> rows[i] == RenderRow(es[i])
  {
    seq(|es|, i requires 0 <= i < |es| => RenderRow(es[i]))
  }

  /** The value of the status drop-down: `all`, or one status. */
  datatype StatusFilter = All | Only(status: Status)

  /** `(searchBox.value || '').trim().toLowerCase()`. */
  function NormalizeQuery(search: string): string {
    Lower(Trim(search))
  }

  /** `String(item.tokenNumber || '')`: the digits of the token number, or nothing
      when the number is missing or zero. */
  function TokenText(p: Patient): string {
    if TokenOrZero(p) == 0 then "" else NatToString(TokenOrZero(p))
  }

  /** The search test of `renderQueue`: the query occurs in the lower-cased name, the
      lower-cased label, or the digits of the token number. */
  predicate MatchesQuery(p: Patient, q: string) {
    || Contains(Lower(p.name.GetOr("")), q)
    || Contains(Lower(p.tokenLabel.GetOr("")), q)
    || Contains(TokenText(p), q)
  }

  predicate PassesFilter(p: Patient, f: StatusFilter) {
    f.All? || p.status == Some(f.status)
  }

  /** A record is listed when it passes the status filter and, for a non-empty query,
      the search. */
  predicate Shown(p: Patient, f: StatusFilter, q: string) {
    PassesFilter(p, f) && (q == "" || MatchesQuery(p, q))
  }

  /** The entries `renderQueue` lists, in input order. */
  function Visible(entries: seq<Entry>, f: StatusFilter, q: string): seq<Entry>
    decreases |entries|
  {
    if entries == [] then []
    else
      var last := entries[|entries| - 1];
      Visible(entries[..|entries| - 1], f, q) + (if Shown(last.1, f, q) then [last] else [])
  }

  /** `r` is `s` with some elements left out and the rest in their order. */
  ghost predicate IsSubsequence<T>(r: seq<T>, s: seq<T>)
    decreases |s|
  {
    if r == [] then true
    else if s == [] then false
    else (r[|r| - 1] == s[|s| - 1] && IsSubsequence(r[..|r| - 1], s[..|s| - 1]))
         || IsSubsequence(r, s[..|s| - 1])
  }

  /** One more entry adds its row exactly when it is shown. */
  lemma RenderStep(entries: seq<Entry>, i: nat, f: StatusFilter, q: string)
    requires i < |entries|
    ensures RenderRows(Visible(entries[..i + 1], f, q))
            == RenderRows(Visible(entries[..i], f, q))
               + (if Shown(entries[i].1, f, q) then [RenderRow(entries[i])] else [])
  {
    assert entries[..i + 1][..i] == entries[..i];
    var v := Visible(entries[..i], f, q);
    if Shown(entries[i].1, f, q) {
      assert RenderRows(v + [entries[i]]) == RenderRows(v) + [RenderRow(entries[i])];
    } else {
      assert v + [] == v;
      assert RenderRows(v) + [] == RenderRows(v);
    }
  }

  /** `renderQueue`: one row per entry that passes the filter and the search, in input
      order, and the "no records" notice exactly when no row was added. */
  method RenderQueue(entries: seq<Entry>, filter: StatusFilter, search: string)
    returns (rows: seq<Row>, noRecords: bool)
    ensures rows == RenderRows(Visible(entries, filter, NormalizeQuery(search)))
    ensures noRecords <==> |rows| == 0
  {
    var q := NormalizeQuery(search);
    var count := 0;
    rows := [];
    for i := 0 to |entries|
      invariant count == |rows|
      invariant rows == RenderRows(Visible(entries[..i], filter, q))
    {
      var item := entries[i].1;
      RenderStep(entries, i, filter, q);
      if filter.Only? && item.status != Some(filter.status) {
        assert !PassesFilter(item, filter);
        continue;
      }
      if q != "" {
        var matches := MatchesQuery(item, q);
        if !matches {
          assert !Shown(item, filter, q);
          continue;
        }
      }
      assert Shown(item, filter, q);
      rows := rows + [RenderRow(entries[i])];
      count := count + 1;
    }
    assert entries[..|entries|] == entries;
    assert rows == RenderRows(Visible(entries, filter, q));
    noRecords := count == 0;
  }

  /** The listed entries are taken from the input in order. */
  lemma {:induction false} VisibleIsSubsequence(entries: seq<Entry>, f: StatusFilter, q: string)
    ensures IsSubsequence(Visible(entries, f, q), entries)
    decreases |entries|
  {
    if entries != [] {
      var init := entries[..|entries| - 1];
      var last := entries[|entries| - 1];
      var v := Visible(init, f, q);
      VisibleIsSubsequence(init, f, q);
      if Shown(last.1, f, q) {
        assert (v + [last])[..|v|] == v;
      } else {
        assert v + [] == v;
        if v != [] {
          assert IsSubsequence(v, entries);
        }
      }
    }
  }

  /** An entry is listed exactly when it is in the input and passes the filter and the
      search. */
  lemma {:induction false} VisibleMembers(entries: seq<Entry>, f: StatusFilter, q: string)
    ensures forall e :: e in Visible(entries, f, q) <==> e in entries && Shown(e.1, f, q)
    decreases |entries|
  {
    if entries != [] {
      var init := entries[..|entries| - 1];
      VisibleMembers(init, f, q);
      assert entries == init + [entries[|entries| - 1]];
    }
  }

  /** Listing never repeats a key the input does not repeat. */
  lemma {:induction false} VisibleDistinctKeys(entries: seq<Entry>, f: StatusFilter, q: string)
    requires DistinctKeys(entries)
    ensures DistinctKeys(Visible(entries, f, q))
    decreases |entries|
  {
    if entries != [] {
      var init := entries[..|entries| - 1];
      var last := entries[|entries| - 1];
      VisibleDistinctKeys(init, f, q);
      VisibleMembers(init, f, q);
      var v := Visible(init, f, q);
      forall i | 0 <= i < |v|
        ensures v[i].0 != last.0
      {
        var j :| 0 <= j < |init| && init[j] == v[i];
      }
    }
  }

  /** The filter `all` with an empty query lists every entry. */
  lemma {:induction false} VisibleAllEmptyQuery(entries: seq<Entry>)
    ensures Visible(entries, All, "") == entries
    decreases |entries|
  {
    if entries != [] {
      VisibleAllEmptyQuery(entries[..|entries| - 1]);
      assert entries == entries[..|entries| - 1] + [entries[|entries| - 1]];
    }
  }

  /** A search box holding only whitespace searches for nothing: with the filter
      `all`, every entry is listed, and `noRecords` shows only for an empty queue. */
  lemma BlankSearchListsAll(entries: seq<Entry>, search: string)
    requires forall i :: 0 <= i < |search| ==> IsWhitespace(search[i])
    ensures NormalizeQuery(search) == ""
    ensures Visible(entries, All, NormalizeQuery(search)) == entries
  {
    TrimSpec(search);
    VisibleAllEmptyQuery(entries);
  }

  /** Under a status filter every listed entry has that status. */
  lemma VisibleHasFilterStatus(entries: seq<Entry>, s: Status, q: string)
    ensures forall e <- Visible(entries, Only(s), q) :: e.1.status == Some(s)
  {
    VisibleMembers(entries, Only(s), q);
  }

  /** Keys of a snapshot entry for `sort((a, b) => (a.tokenNumber || 0) - (b.tokenNumber || 0))`. */
  function TokenKey(e: Entry): int {
    TokenOrZero(e.1)
  }

  /** Listing keeps the token order of a sorted snapshot. */
  lemma {:induction false} VisibleKeepsOrder(entries: seq<Entry>, f: StatusFilter, q: string)
    requires SortedBy(entries, TokenKey)
    ensures SortedBy(Visible(entries, f, q), TokenKey)
    decreases |entries|
  {
    if entries != [] {
      var init := entries[..|entries| - 1];
      var last := entries[|entries| - 1];
      assert SortedBy(init, TokenKey);
      VisibleKeepsOrder(init, f, q);
      VisibleMembers(init, f, q);
      var v := Visible(init, f, q);
      forall i | 0 <= i < |v|
        ensures TokenKey(v[i]) <= TokenKey(last)
      {
        assert v[i] in init;
      }
    }
  }

  /** The snapshot `attachListener` receives, sorted ascending by token number (a
      missing number counts as 0; equal numbers keep the snapshot's order). */
  method SortedSnapshot(db: Db) returns (entries: seq<Entry>)
    ensures IsEnumeration(entries, db.patients)
    ensures SortedBy(entries, TokenKey)
  {
    var raw := Entries(db.patients);
    entries := SortBy(raw, TokenKey);
    EnumerationPermuted(raw, entries, db.patients);
  }

  /** What a live view lists, drawn from a sorted enumeration of `patients`: exactly
      the records that pass the filter and the search, in ascending token order. */
  lemma LiveViewContents(entries: seq<Entry>, m: map<Key, Patient>, f: StatusFilter, q: string)
    requires IsEnumeration(entries, m)
    requires SortedBy(entries, TokenKey)
    ensures SortedBy(Visible(entries, f, q), TokenKey)
    ensures forall e :: e in Visible(entries, f, q) <==> e.0 in m && m[e.0] == e.1 && Shown(e.1, f, q)
    ensures DistinctKeys(Visible(entries, f, q))
  {
    VisibleKeepsOrder(entries, f, q);
    VisibleDistinctKeys(entries, f, q);
    VisibleMembers(entries, f, q);
    forall e: Entry | e.0 in m && m[e.0] == e.1
      ensures e in entries
    {
      var i :| 0 <= i < |entries| && entries[i].0 == e.0;
      assert entries[i] == e;
    }
  }

  /** A search for the label a record was registered with (in any letter case, with
      surrounding blanks) finds that record. */
  lemma {:induction false} SearchFindsLabel(p: Patient, n: nat, search: string)
    requires p.tokenLabel == Some(FormatToken(n))
    requires NormalizeQuery(search) == Lower(FormatToken(n))
    ensures MatchesQuery(p, NormalizeQuery(search))
  {
    ContainsSelf(Lower(FormatToken(n)));
  }

  /** A search box holding the digits of a number searches for exactly those digits:
      they have no surrounding whitespace and no letters to lower. */
  lemma NormalizeDigits(n: nat)
    ensures NormalizeQuery(NatToString(n)) == NatToString(n)
  {
    var d := NatToString(n);
    assert IsDigit(d[0]) && IsDigit(d[|d| - 1]);
    TrimUntrimmed(d);
    assert forall i :: 0 <= i < |d| ==> IsDigit(d[i]) && LowerChar(d[i]) == d[i];
  }

  /** Typing the digits of a non-zero token number in the search box finds the record. */
  lemma SearchFindsNumber(p: Patient)
    requires TokenOrZero(p) != 0
    ensures MatchesQuery(p, NormalizeQuery(NatToString(TokenOrZero(p))))
  {
    NormalizeDigits(TokenOrZero(p));
    ContainsSelf(NatToString(TokenOrZero(p)));
  }

  /** `"T-002 "` and `"t-002"` both find the record labelled `T-002`. */
  lemma SearchExample(p: Patient, search: string)
    requires p.tokenLabel == Some("T-002")
    requires search == "T-002 " || search == "t-002"
    ensures NormalizeQuery(search) == "t-002"
    ensures MatchesQuery(p, NormalizeQuery(search))
  {
    var stored := p.tokenLabel.value;
    if search == "T-002 " {
      TrimExample(search);
    } else {
      TrimUntrimmed(search);
    }
    LowerExample(Trim(search));
    LowerExample(stored);
    ContainsSelf(Lower(stored));
  }
}
