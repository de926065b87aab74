/** The realtime database both pages share, reduced to the four locations they use:
    the token counter `meta/lastToken`, the active patients `patients/{key}`, the
    archive `archive/patients/{key}` and the per-patient history
    `records/{key}/{entryKey}`. The database itself (Firebase) is not part of this
    model; what is modelled is the effect of the primitives the pages call on it:
    `transaction`, a multi-path `update`, `set`, `push().key` and `Object.entries`
    over a snapshot. */
module Store {
  import opened Wrappers

  /** A database key: a `push()` key or a path segment. */
  type Key = string

  /** The status values the pages write and filter on. */
  datatype Status = Waiting | Called | Checked

  function StatusName(s: Status): string {
    match s
    case Waiting => "waiting"
    case Called => "called"
    case Checked => "checked"
  }

  /** The prescription payload the doctor page writes; `ts` is the server time the
      write resolved `ServerValue.TIMESTAMP` to. */
  datatype Prescription = Prescription(medicine: string, notes: string, prescribedBy: string, ts: nat)

  /** The node at `patients/{key}`. Every child may be absent: a record created by the
      receptionist page has the registration fields, and an `update` on a key that
      has no record creates a node with only the children it writes. */
  datatype Patient = Patient(
    tokenNumber: Option<nat>,
    tokenLabel: Option<string>,
    name: Option<string>,
    age: Option<string>,
    gender: Option<string>,
    contact: Option<string>,
    reason: Option<string>,
    status: Option<Status>,
    createdAt: Option<nat>,
    lastUpdated: Option<nat>,
    prescription: Option<Prescription>)

  /** A node with no children, which is what a child write starts from on a missing
      record. */
  const EMPTY_PATIENT := Patient(None, None, None, None, None, None, None, None, None, None, None)

  /** The node at `archive/patients/{key}`: the copied record and its `archivedAt`. */
  datatype Archived = Archived(record: Patient, archivedAt: Option<nat>)

  /** The node at `records/{key}/{entryKey}`. Its `patientSnapshotAt: null` child is
      not stored by the database, so the entry holds the prescription only. */
  datatype HistoryEntry = HistoryEntry(prescription: Option<Prescription>)

  /** The contents of the four locations. */
  datatype DbState = DbState(
    lastToken: Option<nat>,
    patients: map<Key, Patient>,
    archive: map<Key, Archived>,
    records: map<Key, map<Key, HistoryEntry>>)

  function PatientAt(s: DbState, k: Key): Patient {
    if k in s.patients then s.patients[k] else EMPTY_PATIENT
  }

  function ArchivedAt(s: DbState, k: Key): Archived {
    if k in s.archive then s.archive[k] else Archived(EMPTY_PATIENT, None)
  }

  function HistoryOf(s: DbState, k: Key): map<Key, HistoryEntry> {
    if k in s.records then s.records[k] else map[]
  }

  /** One entry of an `update` object: a path and the value written there. */
  datatype Write =
    | SetPatient(key: Key, value: Option<Patient>)        // patients/{key} (None is null: delete)
    | SetStatus(key: Key, status: Status)                  // patients/{key}/status
    | SetPrescription(key: Key, prescription: Prescription) // patients/{key}/prescription
    | SetLastUpdated(key: Key, time: nat)                  // patients/{key}/lastUpdated
    | SetArchived(key: Key, archived: Archived)            // archive/patients/{key}
    | SetArchivedAt(key: Key, time: nat)                   // archive/patients/{key}/archivedAt
    | SetHistory(key: Key, entryKey: Key, entry: HistoryEntry) // records/{key}/{entryKey}

  /** The database path a write addresses, segment by segment. */
  function PathOf(w: Write): seq<string> {
    match w
    case SetPatient(k, _) => ["patients", k]
    case SetStatus(k, _) => ["patients", k, "status"]
    case SetPrescription(k, _) => ["patients", k, "prescription"]
    case SetLastUpdated(k, _) => ["patients", k, "lastUpdated"]
    case SetArchived(k, _) => ["archive", "patients", k]
    case SetArchivedAt(k, _) => ["archive", "patients", k, "archivedAt"]
    case SetHistory(k, e, _) => ["records", k, e]
  }

  /** Neither path lies on or under the other. */
  predicate Apart(w: Write, v: Write) {
    !(PathOf(w) <= PathOf(v)) && !(PathOf(v) <= PathOf(w))
  }

  /** The database refuses a multi-path update in which one path is an ancestor of
      (or the same as) another. */
  predicate Conflicting(ws: seq<Write>) {
    exists i, j :: 0 <= i < |ws| && 0 <= j < |ws| && i != j && PathOf(ws[i]) <= PathOf(ws[j])
  }

  /** The value `w` writes replaces whatever its path held; every other location is
      kept. A write below a missing node creates that node. */
  function ApplyWrite(s: DbState, w: Write): DbState {
    match w
    case SetPatient(k, v) =>
      if v.Some? then s.(patients := s.patients[k := v.value]) else s.(patients := s.patients - {k})
    case SetStatus(k, st) =>
      s.(patients := s.patients[k := PatientAt(s, k).(status := Some(st))])
    case SetPrescription(k, p) =>
      s.(patients := s.patients[k := PatientAt(s, k).(prescription := Some(p))])
    case SetLastUpdated(k, t) =>
      s.(patients := s.patients[k := PatientAt(s, k).(lastUpdated := Some(t))])
    case SetArchived(k, a) =>
      s.(archive := s.archive[k := a])
    case SetArchivedAt(k, t) =>
      s.(archive := s.archive[k := ArchivedAt(s, k).(archivedAt := Some(t))])
    case SetHistory(k, e, h) =>
      s.(records := s.records[k := HistoryOf(s, k)[e := h]])
  }

  /** The writes of an update, one after the other. */
  function ApplyAll(s: DbState, ws: seq<Write>): DbState
    decreases |ws|
  {
    if ws == [] then s else ApplyAll(ApplyWrite(s, ws[0]), ws[1..])
  }

  /** An update of two writes applies the first, then the second. */
  lemma ApplyAllPair(s: DbState, v: Write, w: Write)
    ensures ApplyAll(s, [v, w]) == ApplyWrite(ApplyWrite(s, v), w)
  {
    assert [v, w][1..] == [w];
    assert [w][1..] == [];
    assert ApplyAll(ApplyWrite(s, v), [w]) == ApplyAll(ApplyWrite(ApplyWrite(s, v), w), []);
  }

  /** An update of three writes applies them in turn. */
  lemma ApplyAllTriple(s: DbState, u: Write, v: Write, w: Write)
    ensures ApplyAll(s, [u, v, w]) == ApplyWrite(ApplyWrite(ApplyWrite(s, u), v), w)
  {
    assert [u, v, w][1..] == [v, w];
    ApplyAllPair(ApplyWrite(s, u), v, w);
  }

  /** `db.ref().update(updates)`: all of the writes, or, when the update is refused,
      none of them. */
  function Updated(s: DbState, ws: seq<Write>): Option<DbState> {
    if Conflicting(ws) then None else Some(ApplyAll(s, ws))
  }

  /** The location `w` addresses holds the value `w` wrote. */
  predicate Holds(s: DbState, w: Write) {
    match w
    case SetPatient(k, v) =>
      if v.Some? then k in s.patients && s.patients[k] == v.value else k !in s.patients
    case SetStatus(k, st) => k in s.patients && s.patients[k].status == Some(st)
    case SetPrescription(k, p) => k in s.patients && s.patients[k].prescription == Some(p)
    case SetLastUpdated(k, t) => k in s.patients && s.patients[k].lastUpdated == Some(t)
    case SetArchived(k, a) => k in s.archive && s.archive[k] == a
    case SetArchivedAt(k, t) => k in s.archive && s.archive[k].archivedAt == Some(t)
    case SetHistory(k, e, h) => k in s.records && e in s.records[k] && s.records[k][e] == h
  }

  /** After a write, its own location holds its value. */
  lemma ApplyWriteHolds(s: DbState, w: Write)
    ensures Holds(ApplyWrite(s, w), w)
  {
  }

  /** A write leaves the value at any path apart from its own alone. */
  lemma ApplyWriteKeepsHolds(s: DbState, w: Write, v: Write)
    requires Holds(s, w) && Apart(w, v)
    ensures Holds(ApplyWrite(s, v), w)
  {
    var p, q := PathOf(w), PathOf(v);
    assert p[0] == q[0] && |p| > 1 && |q| > 1 && p[1] == q[1] && |p| <= |q| && p == q[..|p|] ==> p <= q;
  }

  lemma {:induction false} ApplyAllKeepsHolds(s: DbState, w: Write, ws: seq<Write>)
    requires Holds(s, w)
    requires forall v <- ws :: Apart(w, v)
    ensures Holds(ApplyAll(s, ws), w)
    decreases |ws|
  {
    if ws != [] {
      ApplyWriteKeepsHolds(s, w, ws[0]);
      assert forall v <- ws[1..] :: v in ws;
      ApplyAllKeepsHolds(ApplyWrite(s, ws[0]), w, ws[1..]);
    }
  }

  /** An update the database accepts leaves every listed path holding the value listed
      for it, whatever the order of the listing. */
  lemma {:induction false} UpdateHoldsAll(s: DbState, ws: seq<Write>)
    requires !Conflicting(ws)
    ensures forall w <- ws :: Holds(ApplyAll(s, ws), w)
    decreases |ws|
  {
    if ws != [] {
      var rest := ws[1..];
      forall i, j | 0 <= i < |rest| && 0 <= j < |rest| && i != j
        ensures !(PathOf(rest[i]) <= PathOf(rest[j]))
      {
        assert rest[i] == ws[i + 1] && rest[j] == ws[j + 1];
      }
      UpdateHoldsAll(ApplyWrite(s, ws[0]), rest);
      ApplyWriteHolds(s, ws[0]);
      forall v <- rest
        ensures Apart(ws[0], v)
      {
        var j :| 1 <= j < |ws| && ws[j] == v;
        assert !(PathOf(ws[0]) <= PathOf(ws[j]));
        assert !(PathOf(ws[j]) <= PathOf(ws[0]));
      }
      ApplyAllKeepsHolds(ApplyWrite(s, ws[0]), ws[0], rest);
    }
  }

  /** `t` and `s` agree on everything stored under key `k`. */
  predicate SameAt(t: DbState, s: DbState, k: Key) {
    && (k in t.patients <==> k in s.patients) && PatientAt(t, k) == PatientAt(s, k)
    && (k in t.archive <==> k in s.archive) && ArchivedAt(t, k) == ArchivedAt(s, k)
    && (k in t.records <==> k in s.records) && HistoryOf(t, k) == HistoryOf(s, k)
  }

  /** A write never touches the counter, nor any key but its own. */
  lemma ApplyWriteFrame(s: DbState, w: Write, k: Key)
    requires w.key != k
    ensures ApplyWrite(s, w).lastToken == s.lastToken
    ensures SameAt(ApplyWrite(s, w), s, k)
  {
  }

  /** An update never touches the counter, nor any key none of its writes names. */
  lemma {:induction false} ApplyAllFrame(s: DbState, ws: seq<Write>, k: Key)
    requires forall w <- ws :: w.key != k
    ensures ApplyAll(s, ws).lastToken == s.lastToken
    ensures SameAt(ApplyAll(s, ws), s, k)
    decreases |ws|
  {
    if ws != [] {
      var t := ApplyWrite(s, ws[0]);
      ApplyWriteFrame(s, ws[0], k);
      assert forall w <- ws[1..] :: w in ws;
      ApplyAllFrame(t, ws[1..], k);
    }
  }

  /** A status write sets the `status` child of its record, creating the record when
      it is missing, and changes nothing else: no other child, key, counter, archive
      or history entry. */
  lemma SetStatusEffect(s: DbState, k: Key, st: Status)
    ensures var t := ApplyAll(s, [SetStatus(k, st)]);
            && k in t.patients && t.patients[k] == PatientAt(s, k).(status := Some(st))
            && t.archive == s.archive && t.records == s.records && t.lastToken == s.lastToken
            && (forall other :: other != k ==> SameAt(t, s, other))
  {
    assert ApplyAll(s, [SetStatus(k, st)]) == ApplyAll(ApplyWrite(s, SetStatus(k, st)), []);
  }

  /** `push().key`: a non-empty key no child of the location already has. Only
      freshness and non-emptiness matter to the pages, so the key is simply longer than
      every key in use. */
  method FreshKey(used: set<Key>) returns (k: Key)
    ensures k !in used && k != ""
  {
    var rest := used;
    var longest: nat := 0;
    while rest != {}
      invariant rest <= used
      invariant forall u :: u in used && u !in rest ==> |u| < longest
      decreases |rest|
    {
      var u :| u in rest;
      if |u| >= longest {
        longest := |u| + 1;
      }
      rest := rest - {u};
    }
    k := seq(longest + 1, _ => '-');
  }

  /** `es` lists the entries of `m`, each key once, in some order. */
  predicate IsEnumeration<V(==)>(es: seq<(Key, V)>, m: map<Key, V>) {
    && |es| == |m|
    && (forall i :: 0 <= i < |es| ==> es[i].0 in m && m[es[i].0] == es[i].1)
    && (forall k :: k in m ==> exists i :: 0 <= i < |es| && es[i].0 == k)
    && DistinctKeys(es)
  }

  /** No key occurs twice in `es`. */
  predicate DistinctKeys<V>(es: seq<(Key, V)>) {
    forall i, j :: 0 <= i < j < |es| ==> es[i].0 != es[j].0
  }

  /** In a sequence without repeated keys every element occurs at most once. */
  lemma {:induction false} OccursOnce<V>(es: seq<(Key, V)>, x: (Key, V))
    requires DistinctKeys(es)
    ensures multiset(es)[x] <= 1
    decreases |es|
  {
    if es != [] {
      var init := es[..|es| - 1];
      assert es == init + [es[|es| - 1]];
      OccursOnce(init, x);
      if es[|es| - 1] == x {
        assert x !in init;
      }
    }
  }

  /** An element found at two indices occurs at least twice. */
  lemma OccursTwice<T>(s: seq<T>, i: int, j: int)
    requires 0 <= i < j < |s| && s[i] == s[j]
    ensures multiset(s)[s[i]] >= 2
  {
    assert s == s[..j] + [s[j]] + s[j + 1..];
    assert s[i] in s[..j];
  }

  /** `Object.entries(snapshot.val() || {})`: the entries of a snapshot, in an order
      this model leaves open. */
  method Entries<V(==)>(m: map<Key, V>) returns (es: seq<(Key, V)>)
    ensures IsEnumeration(es, m)
  {
    es := [];
    var rest := m.Keys;
    while rest != {}
      invariant rest <= m.Keys
      invariant |es| + |rest| == |m|
      invariant forall i :: 0 <= i < |es| ==> es[i].0 in m && es[i].0 !in rest && m[es[i].0] == es[i].1
      invariant forall k :: k in m && k !in rest ==> exists i :: 0 <= i < |es| && es[i].0 == k
      invariant DistinctKeys(es)
      decreases |rest|
    {
      var k :| k in rest;
      ghost var before := es;
      es := es + [(k, m[k])];
      assert es[|es| - 1].0 == k;
      assert forall i :: 0 <= i < |before| ==> es[i] == before[i];
      rest := rest - {k};
    }
  }

  /** Reordering an enumeration gives an enumeration of the same map. */
  lemma EnumerationPermuted<V>(es: seq<(Key, V)>, r: seq<(Key, V)>, m: map<Key, V>)
    requires IsEnumeration(es, m)
    requires multiset(r) == multiset(es)
    ensures IsEnumeration(r, m)
  {
    assert |r| == |multiset(r)| == |multiset(es)| == |es|;
    forall i | 0 <= i < |r|
      ensures r[i].0 in m && m[r[i].0] == r[i].1
    {
      assert r[i] in multiset(es);
      var j :| 0 <= j < |es| && es[j] == r[i];
    }
    forall k | k in m
      ensures exists i :: 0 <= i < |r| && r[i].0 == k
    {
      var j :| 0 <= j < |es| && es[j].0 == k;
      assert es[j] in multiset(r);
      var i :| 0 <= i < |r| && r[i] == es[j];
    }
    forall i, j | 0 <= i < j < |r|
      ensures r[i].0 != r[j].0
    {
      if r[i].0 == r[j].0 {
        assert r[i] == r[j];
        OccursTwice(r, i, j);
        OccursOnce(es, r[i]);
        assert false;
      }
    }
  }

  /** The shared database: the counter and the three maps, changed only through the
      primitives below. */
  class Db {
    var lastToken: Option<nat>
    var patients: map<Key, Patient>
    var archive: map<Key, Archived>
    var records: map<Key, map<Key, HistoryEntry>>

    function State(): DbState
      reads this
    {
      DbState(lastToken, patients, archive, records)
    }

    constructor ()
      ensures State() == DbState(None, map[], map[], map[])
    {
      lastToken, patients, archive, records := None, map[], map[], map[];
    }

    /** `ref('meta/lastToken').transaction(update)`, run as one step. `commit` is
        whether the database accepted it. On commit the counter becomes
        `update(current)`; otherwise nothing changes. `value` is the snapshot the
        transaction resolves with. */
    method Transaction(update: Option<nat> -> nat, commit: bool) returns (committed: bool, value: Option<nat>)
      modifies this
      ensures committed == commit
      ensures State() == old(State()).(lastToken := if commit then Some(update(old(lastToken))) else old(lastToken))
      ensures value == lastToken
    {
      if commit {
        lastToken := Some(update(lastToken));
      }
      committed, value := commit, lastToken;
    }

    /** `db.ref().update(updates)`: applied whole, or refused whole. */
    method Update(ws: seq<Write>) returns (ok: bool)
      modifies this
      ensures ok == !Conflicting(ws)
      ensures Updated(old(State()), ws) == (if ok then Some(State()) else None)
      ensures !ok ==> State() == old(State())
    {
      ok := !Conflicting(ws);
      if ok {
        var t := ApplyAll(State(), ws);
        lastToken, patients, archive, records := t.lastToken, t.patients, t.archive, t.records;
      }
    }

    /** `ref.set(value)` of a single location. */
    method Set(w: Write)
      modifies this
      ensures State() == ApplyWrite(old(State()), w)
    {
      var t := ApplyWrite(State(), w);
      lastToken, patients, archive, records := t.lastToken, t.patients, t.archive, t.records;
    }

    /** Every key in use anywhere in the database. */
    function Keys(): set<Key>
      reads this
    {
      patients.Keys + archive.Keys + records.Keys
    }
  }
}
