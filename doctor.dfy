/** The doctor page: the live queue it keeps, the selected patient, saving a
    prescription to the record and to its history, marking a visit checked, and the
    history list, newest first. */
module Doctor {
  import opened Wrappers
  import opened Text
  import opened Store
  import opened Sorting
  import opened Queue

  /** What `openPatient` puts in the details panel and the two prescription inputs. */
  datatype Details = Details(token: string, name: string, age: string, contact: string,
                             reason: string, medicine: string, notes: string)

  function DetailsOf(p: Patient): Details {
    Details(DisplayToken(p), p.name.GetOr(""), p.age.GetOr(""), p.contact.GetOr(""),
            p.reason.GetOr(""),
            if p.prescription.Some? then p.prescription.value.medicine else "",
            if p.prescription.Some? then p.prescription.value.notes else "")
  }

  /** The panel shows a record the way its queue row does, and the inputs start from
      the record's current prescription, or empty when it has none. */
  lemma DetailsMatchRow(key: Key, p: Patient)
    ensures var d, r := DetailsOf(p), RenderRow((key, p));
            && d.token == r.token && d.name == r.name && d.age == r.age
            && d.contact == r.contact && d.reason == r.reason
    ensures p.prescription.Some? ==>
              DetailsOf(p).medicine == p.prescription.value.medicine
              && DetailsOf(p).notes == p.prescription.value.notes
    ensures p.prescription == None ==> DetailsOf(p).medicine == "" && DetailsOf(p).notes == ""
  {
  }

  /** `a[1].prescription && a[1].prescription.ts || 0`: the time a history entry
      sorts by. */
  function EntryTime(h: HistoryEntry): nat {
    if h.prescription.Some? then h.prescription.value.ts else 0
  }

  /** Sort key for the comparator `bt - at`: later entries first. */
  function NewestFirst(e: (Key, HistoryEntry)): int {
    -(EntryTime(e.1) as int)
  }

  /** Entry times never increase along `es`. */
  predicate Descending(es: seq<(Key, HistoryEntry)>) {
    SortedBy(es, NewestFirst)
  }

  /** What the history list ends up showing. */
  datatype HistoryView =
    | NoHistory                                  // "No history available."
    | LoadFailed                                 // "Failed to load history."
    | Listed(entries: seq<(Key, HistoryEntry)>)  // one block per entry, in this order

  /** `view` is what loading the history `m` shows: the notice for an empty history;
      the failure notice when an entry has no prescription (reading its `medicine`
      throws and the error reaches the `catch`); otherwise every entry, newest first. */
  predicate ShowsHistory(view: HistoryView, m: map<Key, HistoryEntry>) {
    match view
    case NoHistory => m == map[]
    case LoadFailed => exists k :: k in m && m[k].prescription == None
    case Listed(es) =>
      && m != map[]
      && (forall k :: k in m ==> m[k].prescription.Some?)
      && IsEnumeration(es, m)
      && Descending(es)
  }

  /** In a newest-first listing, an entry later than every other one comes first. */
  lemma NewestListedFirst(es: seq<(Key, HistoryEntry)>, m: map<Key, HistoryEntry>, k: Key)
    requires IsEnumeration(es, m) && Descending(es)
    requires k in m
    requires forall other :: other in m && other != k ==> EntryTime(m[other]) < EntryTime(m[k])
    ensures |es| > 0 && es[0] == (k, m[k])
  {
    var i :| 0 <= i < |es| && es[i].0 == k;
    assert EntryTime(m[k]) <= EntryTime(es[0].1);
  }

  /** The entries of a history snapshot, sorted with the comparator `bt - at`. */
  method SortedHistory(m: map<Key, HistoryEntry>) returns (entries: seq<(Key, HistoryEntry)>)
    ensures IsEnumeration(entries, m) && Descending(entries)
  {
    var raw := Entries(m);
    entries := SortBy(raw, NewestFirst);
    EnumerationPermuted(raw, entries, m);
  }

  /** The prescription `savePrescription` writes: trimmed inputs, the signed-in
      user's email or `doctor`, and the server time. */
  function PrescriptionOf(medicine: string, notes: string, user: Option<string>, now: nat): Prescription {
    Prescription(Trim(medicine), Trim(notes), user.GetOr("doctor"), now)
  }

  /** The update `savePrescription` sends for record `key` and history key `entryKey`. */
  function PrescriptionUpdates(key: Key, entryKey: Key, p: Prescription, now: nat): seq<Write> {
    [SetPrescription(key, p), SetLastUpdated(key, now), SetHistory(key, entryKey, HistoryEntry(Some(p)))]
  }

  /** The three paths of the update are apart, so the database accepts it. */
  lemma PrescriptionUpdatesAccepted(key: Key, entryKey: Key, p: Prescription, now: nat)
    ensures !Conflicting(PrescriptionUpdates(key, entryKey, p, now))
  {
    var ws := PrescriptionUpdates(key, entryKey, p, now);
    assert PathOf(ws[0])[2] != PathOf(ws[1])[2];
    assert PathOf(ws[0])[0] != PathOf(ws[2])[0] && PathOf(ws[1])[0] != PathOf(ws[2])[0];
  }

  /** The state the three writes of a save leave, written out. */
  function Saved(s: DbState, key: Key, entryKey: Key, p: Prescription, now: nat): DbState {
    s.(patients := s.patients[key := PatientAt(s, key).(prescription := Some(p), lastUpdated := Some(now))],
       records := s.records[key := HistoryOf(s, key)[entryKey := HistoryEntry(Some(p))]])
  }

  lemma PrescriptionUpdatesApplied(s: DbState, key: Key, entryKey: Key, p: Prescription, now: nat)
    ensures ApplyAll(s, PrescriptionUpdates(key, entryKey, p, now)) == Saved(s, key, entryKey, p, now)
  {
    var ws := PrescriptionUpdates(key, entryKey, p, now);
    ApplyAllTriple(s, ws[0], ws[1], ws[2]);
    var s1 := ApplyWrite(s, ws[0]);
    assert PatientAt(s1, key) == PatientAt(s, key).(prescription := Some(p));
    assert HistoryOf(ApplyWrite(s1, ws[1]), key) == HistoryOf(s, key);
  }

  /** Saving is accepted by the database, sets the record's prescription and
      `lastUpdated`, and adds exactly one history entry under the new key while keeping
      every earlier entry. */
  lemma PrescriptionUpdatesEffect(s: DbState, key: Key, entryKey: Key, p: Prescription, now: nat)
    requires entryKey !in HistoryOf(s, key)
    ensures !Conflicting(PrescriptionUpdates(key, entryKey, p, now))
    ensures var t := ApplyAll(s, PrescriptionUpdates(key, entryKey, p, now));
            && key in t.patients
            && PatientAt(t, key) == PatientAt(s, key).(prescription := Some(p), lastUpdated := Some(now))
            && HistoryOf(t, key).Keys == HistoryOf(s, key).Keys + {entryKey}
            && |HistoryOf(t, key)| == |HistoryOf(s, key)| + 1
            && HistoryOf(t, key)[entryKey] == HistoryEntry(Some(p))
            && (forall e :: e in HistoryOf(s, key) ==> HistoryOf(t, key)[e] == HistoryOf(s, key)[e])
  {
    PrescriptionUpdatesAccepted(key, entryKey, p, now);
    PrescriptionUpdatesApplied(s, key, entryKey, p, now);
    var h := HistoryOf(s, key);
    assert HistoryOf(Saved(s, key, entryKey, p, now), key) == h[entryKey := HistoryEntry(Some(p))];
  }

  /** Saving touches neither the counter, nor the archive, nor anything stored under
      another key. */
  lemma PrescriptionUpdatesFrame(s: DbState, key: Key, entryKey: Key, p: Prescription, now: nat)
    ensures var t := ApplyAll(s, PrescriptionUpdates(key, entryKey, p, now));
            && t.archive == s.archive && t.lastToken == s.lastToken
            && (forall other :: other != key ==> SameAt(t, s, other))
  {
    PrescriptionUpdatesApplied(s, key, entryKey, p, now);
  }

  /** Saves one after another on the same record, each with its own entry key and its
      own server time. */
  ghost function SaveAll(s: DbState, key: Key, saves: seq<(Key, Prescription, nat)>): DbState
    decreases |saves|
  {
    if saves == [] then s
    else SaveAll(ApplyAll(s, PrescriptionUpdates(key, saves[0].0, saves[0].1, saves[0].2)), key, saves[1..])
  }

  /** The history only grows: `K` saves with fresh keys add exactly `K` entries and
      keep every earlier one. */
  lemma {:induction false} SaveAllAppends(s: DbState, key: Key, saves: seq<(Key, Prescription, nat)>)
    requires forall i :: 0 <= i < |saves| ==> saves[i].0 !in HistoryOf(s, key)
    requires forall i, j :: 0 <= i < j < |saves| ==> saves[i].0 != saves[j].0
    ensures |HistoryOf(SaveAll(s, key, saves), key)| == |HistoryOf(s, key)| + |saves|
    ensures forall e :: e in HistoryOf(s, key) ==>
              e in HistoryOf(SaveAll(s, key, saves), key)
              && HistoryOf(SaveAll(s, key, saves), key)[e] == HistoryOf(s, key)[e]
    decreases |saves|
  {
    if saves != [] {
      var t := ApplyAll(s, PrescriptionUpdates(key, saves[0].0, saves[0].1, saves[0].2));
      PrescriptionUpdatesEffect(s, key, saves[0].0, saves[0].1, saves[0].2);
      var rest := saves[1..];
      forall i | 0 <= i < |rest|
        ensures rest[i].0 !in HistoryOf(t, key)
      {
        assert rest[i] == saves[i + 1];
      }
      SaveAllAppends(t, key, rest);
    }
  }

  /** The doctor page's state: the database it talks to, the selected record
      (`currentSelectionKey`) and the last sorted snapshot (`latestEntries`). */
  class DoctorPage {
    const db: Db
    var selection: Option<Key>
    var latestEntries: seq<Entry>

    constructor (db: Db)
      ensures this.db == db && selection == None && latestEntries == []
    {
      this.db := db;
      selection := None;
      latestEntries := [];
    }

    /** `!currentSelectionKey` is false: a non-empty key is selected. */
    predicate Selected()
      reads this
    {
      selection.Some? && selection.value != ""
    }

    /** `attachListener`'s callback: keeps the sorted snapshot for later re-renders and
        draws it. */
    method OnPatientsValue(filter: StatusFilter, search: string) returns (rows: seq<Row>, noRecords: bool)
      modifies this`latestEntries
      ensures IsEnumeration(latestEntries, db.patients) && SortedBy(latestEntries, TokenKey)
      ensures rows == RenderRows(Visible(latestEntries, filter, NormalizeQuery(search)))
      ensures noRecords <==> rows == []
    {
      var entries := SortedSnapshot(db);
      ghost var snapshot := db.patients;
      latestEntries := entries;
      assert db.patients == snapshot;
      rows, noRecords := RenderQueue(entries, filter, search);
    }

    /** A change of the search text or of the filter redraws the kept snapshot without
        reading the database. */
    method Rerender(filter: StatusFilter, search: string) returns (rows: seq<Row>, noRecords: bool)
      ensures forall e :: e in Visible(latestEntries, filter, NormalizeQuery(search)) <==>
                e in latestEntries && Shown(e.1, filter, NormalizeQuery(search))
      ensures rows == RenderRows(Visible(latestEntries, filter, NormalizeQuery(search)))
      ensures noRecords <==> rows == []
    {
      rows, noRecords := RenderQueue(latestEntries, filter, search);
      VisibleMembers(latestEntries, filter, NormalizeQuery(search));
    }

    /** `loadHistoryForPatient`: reads `records/{key}`, sorts newest first and lists
        the entries, or shows one of the two notices. */
    method LoadHistory(key: Key) returns (view: HistoryView)
      ensures ShowsHistory(view, HistoryOf(db.State(), key))
    {
      var m := HistoryOf(db.State(), key);
      var entries := SortedHistory(m);
      if |entries| == 0 {
        assert forall k :: k !in m;
        return NoHistory;
      }
      for i := 0 to |entries|
        invariant forall j :: 0 <= j < i ==> entries[j].1.prescription.Some?
      {
        if entries[i].1.prescription == None {
          assert entries[i].0 in m;
          return LoadFailed;
        }
      }
      forall k | k in m
        ensures m[k].prescription.Some?
      {
        var j :| 0 <= j < |entries| && entries[j].0 == k;
      }
      view := Listed(entries);
    }

    /** `openPatient`: selects the record, fills the panel and loads its history. */
    method OpenPatient(key: Key, item: Patient) returns (details: Details, history: HistoryView)
      modifies this
      ensures selection == Some(key) && latestEntries == old(latestEntries)
      ensures details == DetailsOf(item)
      ensures ShowsHistory(history, HistoryOf(db.State(), key))
    {
      selection := Some(key);
      details := DetailsOf(item);
      history := LoadHistory(key);
    }

    /** `savePrescription`: without a selection nothing is written. Otherwise one
        update sets the record's prescription and `lastUpdated` and adds the
        prescription to the history under a fresh key; the database accepts it, and
        the history is reloaded. */
    method SavePrescription(medicine: string, notes: string, user: Option<string>, now: nat)
      returns (saved: bool, history: Option<HistoryView>, ghost entryKey: Key)
      modifies db
      ensures !Selected() ==> !saved && history == None && db.State() == old(db.State())
      ensures Selected() ==>
                var key := selection.value;
                && saved
                && entryKey !in HistoryOf(old(db.State()), key) && entryKey != ""
                && db.State() == ApplyAll(old(db.State()),
                     PrescriptionUpdates(key, entryKey, PrescriptionOf(medicine, notes, user, now), now))
                && history.Some? && ShowsHistory(history.value, HistoryOf(db.State(), key))
    {
      entryKey := "";
      if !Selected() {
        return false, None, entryKey;
      }
      var key := selection.value;
      var payload := PrescriptionOf(medicine, notes, user, now);
      var recKey := FreshKey(HistoryOf(db.State(), key).Keys);
      entryKey := recKey;
      assert entryKey !in HistoryOf(old(db.State()), key);
      var updates := PrescriptionUpdates(key, recKey, payload, now);
      PrescriptionUpdatesAccepted(key, recKey, payload, now);
      ghost var selected := selection;
      saved := db.Update(updates);
      assert selection == selected;
      var view := LoadHistory(key);
      history := Some(view);
    }

    /** `markChecked`: without a selection nothing is written; otherwise only the
        record's `status` becomes `checked`. */
    method MarkChecked()
      modifies db
      ensures !Selected() ==> db.State() == old(db.State())
      ensures Selected() ==> db.State() == ApplyAll(old(db.State()), [SetStatus(selection.value, Checked)])
    {
      if !Selected() {
        return;
      }
      var _ := db.Update([SetStatus(selection.value, Checked)]);
    }
  }
}
