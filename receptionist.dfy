/** The receptionist page: token allocation, registration, status changes, archival
    and the live queue it shows. */
module Receptionist {
  import opened Wrappers
  import opened Token
  import opened Store
  import opened Sorting
  import opened Queue

  /** The update function of the token transaction, `(current || 0) + 1`: one more
      than the stored counter, or 1 when there is none. */
  function NextToken(current: Option<nat>): (n: nat)
    ensures current == None ==> n == 1
    ensures current.Some? ==> n == current.value + 1
  {
    current.GetOr(0) + 1
  }

  /** `obtainNextToken`: one committed transaction step on `meta/lastToken` yields the
      new counter value; a transaction that does not commit changes nothing and fails
      with no number. */
  method ObtainNextToken(db: Db, commit: bool) returns (r: Result<nat>)
    modifies db
    ensures commit ==> r == Ok(NextToken(old(db.lastToken)))
    ensures commit ==> db.State() == old(db.State()).(lastToken := Some(r.value))
    ensures !commit ==> r.Err? && db.State() == old(db.State())
  {
    var committed, value := db.Transaction(NextToken, commit);
    if committed {
      r := Ok(value.value);
    } else {
      r := Err("Failed to obtain token");
    }
  }

  /** The tokens a run of `obtainNextToken` calls hands out, from counter `counter`,
      when the calls' transactions commit as `commits` says. */
  function Allocations(counter: Option<nat>, commits: seq<bool>): seq<nat>
    decreases |commits|
  {
    if commits == [] then []
    else if commits[0] then [NextToken(counter)] + Allocations(Some(NextToken(counter)), commits[1..])
    else Allocations(counter, commits[1..])
  }

  function CountCommitted(commits: seq<bool>): nat {
    if commits == [] then 0 else (if commits[0] then 1 else 0) + CountCommitted(commits[1..])
  }

  /** A run of allocations hands out exactly one token per committed call, and these
      are the consecutive numbers after the counter: no repeats and no gaps. */
  lemma {:induction false} AllocationsConsecutive(counter: Option<nat>, commits: seq<bool>)
    ensures |Allocations(counter, commits)| == CountCommitted(commits)
    ensures forall i :: 0 <= i < |Allocations(counter, commits)| ==>
              Allocations(counter, commits)[i] == counter.GetOr(0) + 1 + i
    decreases |commits|
  {
    if commits != [] {
      if commits[0] {
        AllocationsConsecutive(Some(NextToken(counter)), commits[1..]);
      } else {
        AllocationsConsecutive(counter, commits[1..]);
      }
    }
  }

  /** Hence no two calls in a run receive the same token. */
  lemma AllocationsDistinct(counter: Option<nat>, commits: seq<bool>)
    ensures forall i, j :: 0 <= i < j < |Allocations(counter, commits)| ==>
              Allocations(counter, commits)[i] < Allocations(counter, commits)[j]
  {
    AllocationsConsecutive(counter, commits);
  }

  /** The registration form's values, as the submit handler collects them. */
  datatype PatientForm = PatientForm(name: string, age: string, gender: string, contact: string, reason: string)

  /** `x || null`: an empty form value is stored as no value. */
  function OrNull(x: string): Option<string> {
    if x == "" then None else Some(x)
  }

  /** The payload `addPatient` writes for token `token`, with `createdAt` resolved to
      the server time `now`. */
  function NewRecord(token: nat, data: PatientForm, now: nat): Patient {
    Patient(
      tokenNumber := Some(token),
      tokenLabel := Some(FormatToken(token)),
      name := Some(data.name),
      age := OrNull(data.age),
      gender := OrNull(data.gender),
      contact := Some(data.contact),
      reason := Some(data.reason),
      status := Some(Waiting),
      createdAt := Some(now),
      lastUpdated := None,
      prescription := None)
  }

  /** A new record displays its own token, reads back as that number, is waiting,
      and shows under the `waiting` filter and under a search for its number. */
  lemma NewRecordShape(token: nat, data: PatientForm, now: nat)
    requires token >= 1
    ensures var p := NewRecord(token, data, now);
            && DisplayToken(p) == FormatToken(token)
            && LabelNumber(DisplayToken(p)) == Some(token)
            && DisplayStatus(p) == Waiting
            && Shown(p, Only(Waiting), "")
            && Shown(p, All, NormalizeQuery(Text.NatToString(token)))
            && (data.age == "" <==> p.age == None)
  {
    var p := NewRecord(token, data, now);
    LabelNumberOfFormatToken(token);
    SearchFindsNumber(p);
  }

  /** `addPatient`: allocates a token and only then writes the new record under a
      fresh key, leaving every other record alone; when allocation fails nothing is
      written and the error is passed on. */
  method AddPatient(db: Db, data: PatientForm, commit: bool, now: nat) returns (r: Result<Patient>, ghost key: Key)
    modifies db
    ensures !commit ==> r.Err? && db.State() == old(db.State())
    ensures commit ==>
              && r == Ok(NewRecord(NextToken(old(db.lastToken)), data, now))
              && key !in old(db.Keys()) && key != ""
              && db.lastToken == Some(NextToken(old(db.lastToken)))
              && db.patients == old(db.patients)[key := r.value]
              && db.archive == old(db.archive)
              && db.records == old(db.records)
  {
    key := "";
    var token := ObtainNextToken(db, commit);
    if token.Err? {
      r := Err(token.message);
      return;
    }
    var tokenNumber := token.value;
    var k := FreshKey(db.Keys());
    key := k;
    var payload := NewRecord(tokenNumber, data, now);
    db.Set(SetPatient(k, Some(payload)));
    r := Ok(payload);
  }

  /** `updateStatus`: writes only the `status` child of `patients/{key}`; the key
      need not exist, and a missing record is created holding just that child. */
  method UpdateStatus(db: Db, key: Key, status: Status)
    modifies db
    ensures db.State() == ApplyAll(old(db.State()), [SetStatus(key, status)])
  {
    var _ := db.Update([SetStatus(key, status)]);
  }

  /** The update `archivePatient` builds, as written: the copy, the deletion and the
      `archivedAt` stamp as three paths, the last one below the first. */
  function ArchiveUpdatesAsWritten(key: Key, record: Patient, now: nat): seq<Write> {
    [SetArchived(key, Archived(record, None)), SetPatient(key, None), SetArchivedAt(key, now)]
  }

  /** The database refuses that update, since `archive/patients/{key}` is an ancestor
      of `archive/patients/{key}/archivedAt`; nothing is archived. */
  lemma ArchiveAsWrittenRefused(s: DbState, key: Key, record: Patient, now: nat)
    ensures Conflicting(ArchiveUpdatesAsWritten(key, record, now))
    ensures Updated(s, ArchiveUpdatesAsWritten(key, record, now)) == None
  {
    var ws := ArchiveUpdatesAsWritten(key, record, now);
    assert PathOf(ws[0]) <= PathOf(ws[2]);
  }

  /** `archivePatient` as written: the refused update is the only write, so the
      database is left as it was whether or not the record exists. */
  method ArchivePatientAsWritten(db: Db, key: Key, now: nat)
    modifies db
    ensures db.State() == old(db.State())
  {
    if key !in db.patients {
      return;
    }
    var record := db.patients[key];
    ArchiveAsWrittenRefused(db.State(), key, record, now);
    var _ := db.Update(ArchiveUpdatesAsWritten(key, record, now));
  }

  /** The update `archivePatient` is meant to make: the stamped copy and the deletion,
      as two paths apart from each other. */
  function ArchiveUpdates(key: Key, record: Patient, now: nat): seq<Write> {
    [SetArchived(key, Archived(record, Some(now))), SetPatient(key, None)]
  }

  /** The intended effect of archiving `key` at time `now`. */
  function Archive(s: DbState, key: Key, now: nat): DbState {
    if key !in s.patients then s else ApplyAll(s, ArchiveUpdates(key, s.patients[key], now))
  }

  /** Archiving moves a present record into the archive with its stamp, in one
      accepted update, and does nothing when there is no record. */
  lemma ArchiveMoves(s: DbState, key: Key, now: nat)
    ensures key !in s.patients ==> Archive(s, key, now) == s
    ensures key in s.patients ==>
              && Updated(s, ArchiveUpdates(key, s.patients[key], now)) == Some(Archive(s, key, now))
              && key !in Archive(s, key, now).patients
              && Archive(s, key, now).archive == s.archive[key := Archived(s.patients[key], Some(now))]
              && Archive(s, key, now).patients == s.patients - {key}
              && Archive(s, key, now).records == s.records
              && Archive(s, key, now).lastToken == s.lastToken
  {
    if key in s.patients {
      var ws := ArchiveUpdates(key, s.patients[key], now);
      assert !(PathOf(ws[0]) <= PathOf(ws[1]));
      assert !(PathOf(ws[1]) <= PathOf(ws[0]));
      assert !Conflicting(ws);
      ApplyAllPair(s, ws[0], ws[1]);
    }
  }

  /** Archiving twice is archiving once: the second call finds no record. */
  lemma ArchiveIdempotent(s: DbState, key: Key, first: nat, second: nat)
    ensures Archive(Archive(s, key, first), key, second) == Archive(s, key, first)
  {
    ArchiveMoves(s, key, first);
  }

  /** Archiving one record leaves every other key and the counter as they were. */
  lemma ArchiveLeavesOthers(s: DbState, key: Key, other: Key, now: nat)
    requires other != key
    ensures SameAt(Archive(s, key, now), s, other)
    ensures Archive(s, key, now).lastToken == s.lastToken
  {
    if key in s.patients {
      ApplyAllFrame(s, ArchiveUpdates(key, s.patients[key], now), other);
    }
  }

  /** `archivePatient` with the stamp placed inside the copied record: reads the
      record, and when there is one moves it to the archive in one update. */
  method ArchivePatient(db: Db, key: Key, now: nat)
    modifies db
    ensures db.State() == Archive(old(db.State()), key, now)
  {
    if key !in db.patients {
      return;
    }
    var record := db.patients[key];
    ArchiveMoves(db.State(), key, now);
    var _ := db.Update(ArchiveUpdates(key, record, now));
  }

  /** `attachListener`'s callback: the current patients sorted by token number, drawn
      through `renderQueue`. What is listed is exactly the active records that pass
      the filter and the search, in ascending token order. */
  method ShowQueue(db: Db, filter: StatusFilter, search: string)
    returns (rows: seq<Row>, noRecords: bool, ghost listed: seq<Entry>)
    ensures rows == RenderRows(listed) && (noRecords <==> rows == [])
    ensures SortedBy(listed, TokenKey) && DistinctKeys(listed)
    ensures forall e :: e in listed <==>
              e.0 in db.patients && db.patients[e.0] == e.1 && Shown(e.1, filter, NormalizeQuery(search))
  {
    var entries := SortedSnapshot(db);
    rows, noRecords := RenderQueue(entries, filter, search);
    listed := Visible(entries, filter, NormalizeQuery(search));
    LiveViewContents(entries, db.patients, filter, NormalizeQuery(search));
  }
}
