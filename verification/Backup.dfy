/** Backup dry run and import (crates/ham-client/src/serve.rs) over the official
    event store: when a dry run succeeds, what an import then appends, and when
    it reaches the end of the backup. */
module Backup {
  import opened Basics
  import opened Event
  import opened Chain
  import opened StoreSpec
  import opened Store
  import Projection

  datatype Manifest = Manifest(formatVersion: Option<int>, logbookId: Option<Uuid>)

  /** A backup file after JSON decoding. `events` is Err when official_events does
      not deserialise, and Ok([]) when the section is absent. */
  datatype BackupFile = BackupFile(manifest: Option<Manifest>, events: Result<seq<Envelope>, ()>)

  datatype Problem =
    | ManifestRequired
    | UnsupportedFormatVersion
    | LogbookMismatch
    | EventsUnreadable
    | ChainRejected(error: ChainError)
    | TargetAhead
    | TargetDiverges

  datatype DryRun = DryRun(ok: bool, problems: seq<Problem>, eventCount: nat, duplicates: nat)

  /** The events the dry run compares with: none when the backup is refused. */
  ghost function Accepted(h: HashFunction, backup: BackupFile): seq<Envelope> {
    if backup.events.Ok? && ValidChain(h, backup.events.value) then backup.events.value else []
  }

  ghost predicate DryRunOk(h: HashFunction, backup: BackupFile, logbook: Uuid, existing: seq<Envelope>) {
    && backup.manifest.Some?
    && backup.manifest.value.formatVersion == Some(1)
    && backup.manifest.value.logbookId == Some(logbook)
    && backup.events.Ok? && ValidChain(h, backup.events.value)
    && IsPrefix(existing, backup.events.value)
  }

  /** serve.rs `backup_events`, decoding included. */
  method ReadEvents(h: HashFunction, backup: BackupFile) returns (r: Result<seq<Envelope>, Problem>)
    ensures r.Ok? <==> backup.events.Ok? && ValidChain(h, backup.events.value)
    ensures r.Ok? ==> r.value == backup.events.value
    ensures r.Err? ==> r.error == EventsUnreadable || r.error.ChainRejected?
  {
    if backup.events.Err? {
      return Err(EventsUnreadable);
    }
    var checked := BackupEvents(h, backup.events.value);
    return if checked.Ok? then Ok(checked.value) else Err(ChainRejected(checked.error));
  }

  /** serve.rs `local_backup_dry_run_payload`. */
  method LocalBackupDryRun(store: JsonlStore, logbook: Uuid, backup: BackupFile) returns (r: DryRun)
    ensures r.ok <==> DryRunOk(store.memory.h, backup, logbook, store.State().Log(logbook))
    ensures r.ok <==> r.problems == []
    ensures backup.manifest.Some? ==>
      var events := Accepted(store.memory.h, backup);
      var existing := store.State().Log(logbook);
      && r.eventCount == |events| && r.duplicates == CommonPrefix(existing, events)
      && (TargetAhead in r.problems <==> |existing| > |events|)
      && (TargetDiverges in r.problems <==> !IsPrefix(existing, events))
  {
    hide ValidChain, CommonPrefix;
    if backup.manifest.None? {
      return DryRun(false, [ManifestRequired], 0, 0);
    }
    var problems: seq<Problem> := [];
    if backup.manifest.value.formatVersion != Some(1) {
      problems := problems + [UnsupportedFormatVersion];
    }
    if backup.manifest.value.logbookId != Some(logbook) {
      problems := problems + [LogbookMismatch];
    }
    var events: seq<Envelope> := [];
    var checked := ReadEvents(store.memory.h, backup);
    match checked {
      case Ok(accepted) => events := accepted;
      case Err(error) => problems := problems + [error];
    }
    var existing := store.memory.ListEvents(logbook);
    if |existing| > |events| {
      problems := problems + [TargetAhead];
    }
    ghost var before := problems;
    var duplicates := 0;
    while duplicates < |existing|
      invariant duplicates <= |existing| && duplicates <= |events|
      invariant existing[..duplicates] == events[..duplicates]
      invariant problems == before
    {
      if duplicates < |events| && events[duplicates] == existing[duplicates] {
        duplicates := duplicates + 1;
      } else {
        problems := problems + [TargetDiverges];
        break;
      }
    }
    CommonPrefixIs(existing, events, duplicates);
    return DryRun(problems == [], problems, |events|, duplicates);
  }

  /** A comparison that stops at the first difference stops after the longest
      common prefix. */
  lemma {:induction false} CommonPrefixIs<T>(a: seq<T>, b: seq<T>, k: nat)
    requires k <= |a| && k <= |b| && a[..k] == b[..k]
    requires k == |a| || k == |b| || a[k] != b[k]
    ensures k == CommonPrefix(a, b)
    ensures k == |a| <==> IsPrefix(a, b)
    decreases k
  {
    if k > 0 {
      assert a[0] == a[..k][0] && b[0] == b[..k][0];
      assert a[1..][..k - 1] == a[..k][1..] && b[1..][..k - 1] == b[..k][1..];
      CommonPrefixIs(a[1..], b[1..], k - 1);
    }
    assert k < |a| <= |b| ==> b[..|a|][k] == b[k];
  }

  // ----- import -----

  datatype ImportRun = ImportRun(state: StoreState, imported: nat, error: Option<StoreError>)

  /** The append loop: stops at the first refused event, counts every event that
      was not refused. */
  ghost function ImportTail(h: HashFunction, s: StoreState, tail: seq<Envelope>): ImportRun
    decreases |tail|
  {
    if tail == [] then ImportRun(s, 0, None)
    else
      match RemoteVerdict(h, s, tail[0])
      case Refuse(error) => ImportRun(s, 0, Some(error))
      case _ =>
        var rest := ImportTail(h, RemoteAppend(h, s, tail[0]), tail[1..]);
        rest.(imported := rest.imported + 1)
  }

  lemma ImportNothing(h: HashFunction, s: StoreState)
    ensures ImportTail(h, s, []) == ImportRun(s, 0, None)
  {
  }

  lemma {:induction false} ImportTailSnoc(h: HashFunction, s: StoreState, tail: seq<Envelope>, e: Envelope)
    requires ImportTail(h, s, tail).error.None?
    ensures var run := ImportTail(h, s, tail);
      run.imported == |tail| &&
      ImportTail(h, s, tail + [e]) ==
        match RemoteVerdict(h, run.state, e)
        case Refuse(error) => ImportRun(run.state, |tail|, Some(error))
        case _ => ImportRun(RemoteAppend(h, run.state, e), |tail| + 1, None)
    decreases |tail|
  {
    hide Valid, RemoteAppend, RemoteVerdict;
    if tail == [] {
      assert [e][1..] == [];
    } else {
      assert (tail + [e])[1..] == tail[1..] + [e];
      ImportTailSnoc(h, RemoteAppend(h, s, tail[0]), tail[1..], e);
    }
  }

  lemma {:induction false} ImportTailStopped(h: HashFunction, s: StoreState, tail: seq<Envelope>, more: seq<Envelope>)
    requires ImportTail(h, s, tail).error.Some?
    ensures ImportTail(h, s, tail + more) == ImportTail(h, s, tail)
    decreases |tail|
  {
    hide Valid, RemoteAppend, RemoteVerdict;
    assert tail != [];
    assert (tail + more)[1..] == tail[1..] + more;
    if !RemoteVerdict(h, s, tail[0]).Refuse? {
      ImportTailStopped(h, RemoteAppend(h, s, tail[0]), tail[1..], more);
    }
  }

  lemma RefusalKeeps(h: HashFunction, s: StoreState, e: Envelope)
    requires RemoteVerdict(h, s, e).Refuse?
    ensures RemoteAppend(h, s, e) == s
  {
    hide RemoteVerdict;
  }

  /** The append loop of `handle_backup_import`. */
  method AppendTail(store: JsonlStore, tail: seq<Envelope>) returns (r: (nat, Option<StoreError>))
    requires store.Sound()
    modifies store, store.memory
    ensures store.Sound() && (store.Consistent() <==> old(store.Consistent()))
    ensures ImportTail(store.memory.h, old(store.State()), tail) == ImportRun(store.State(), r.0, r.1)
  {
    hide *;
    ghost var h, start := store.memory.h, store.State();
    ImportNothing(h, start);
    assert tail[..0] == [];
    var imported := 0;
    while imported < |tail|
      invariant imported <= |tail| && store.Sound() && (store.Consistent() <==> old(store.Consistent()))
      invariant ImportTail(h, start, tail[..imported]) == ImportRun(store.State(), imported, None)
    {
      ImportTailSnoc(h, start, tail[..imported], tail[imported]);
      assert tail[..imported] + [tail[imported]] == tail[..imported + 1];
      var verdict := store.AppendVerifiedRemoteEvent(tail[imported]);
      if verdict.Refuse? {
        RefusalKeeps(h, ImportTail(h, start, tail[..imported]).state, tail[imported]);
        ImportTailStopped(h, start, tail[..imported + 1], tail[imported + 1..]);
        assert tail[..imported + 1] + tail[imported + 1..] == tail;
        return (imported, Some(verdict.error));
      }
      imported := imported + 1;
    }
    assert tail[..imported] == tail;
    return (imported, None);
  }

  datatype ImportResponse =
    | NeedsConfirmation
    | DryRunFailed(dryRun: DryRun)
    | ChainRejectedOnImport
    | AheadOfBackup
    | DivergesFromBackup
    | AppendFailed(storeError: StoreError)
    | ProjectionFailed
    | Imported(imported: nat, skipped: nat)

  /** serve.rs `handle_backup_import`, official events only. The checks repeated
      after the dry run never fire, a failed dry run changes nothing, and what
      is appended is the run of the append loop over the missing tail. When the QSOs
      of the new log cannot be rebuilt the answer is an error, with every event of the
      backup appended. */
  method HandleBackupImport(store: JsonlStore, logbook: Uuid, backup: BackupFile, confirmDryRun: Option<bool>)
    returns (r: ImportResponse)
    requires store.Sound()
    modifies store, store.memory
    ensures store.Sound() && (store.Consistent() <==> old(store.Consistent()))
    ensures !r.ChainRejectedOnImport? && !r.AheadOfBackup? && !r.DivergesFromBackup?
    ensures r.NeedsConfirmation? <==> confirmDryRun != Some(true)
    ensures r.NeedsConfirmation? || r.DryRunFailed? ==> store.State() == old(store.State()) && store.text == old(store.text)
    ensures confirmDryRun == Some(true) ==>
      (r.DryRunFailed? <==> !DryRunOk(store.memory.h, backup, logbook, old(store.State().Log(logbook))))
    ensures r.AppendFailed? || r.ProjectionFailed? || r.Imported? ==>
      var existing := old(store.State().Log(logbook));
      var run := ImportTail(store.memory.h, old(store.State()), backup.events.value[|existing|..]);
      && store.State() == run.state
      && r == match run.error {
           case Some(error) => AppendFailed(error)
           case None =>
             if Projection.Rebuild(store.State().Log(logbook)).None? then ProjectionFailed else Imported(run.imported, |existing|)
         }
  {
    if confirmDryRun != Some(true) {
      return NeedsConfirmation;
    }
    var dryRun := LocalBackupDryRun(store, logbook, backup);
    if !dryRun.ok {
      return DryRunFailed(dryRun);
    }
    var checked := ReadEvents(store.memory.h, backup);
    if checked.Err? {
      return ChainRejectedOnImport;
    }
    var events := checked.value;
    var existing := store.memory.ListEvents(logbook);
    if |existing| > |events| {
      return AheadOfBackup;
    }
    for index := 0 to |existing| {
      if events[index] != existing[index] {
        return DivergesFromBackup;
      }
    }
    var run := AppendTail(store, events[|existing|..]);
    if run.1.Some? {
      return AppendFailed(run.1.value);
    }
    var log := store.memory.ListEvents(logbook);
    return if Projection.Rebuild(log).None? then ProjectionFailed else Imported(run.0, |existing|);
  }

  // ----- when an import reaches the end of its backup -----

  /** What the store demands beyond what the dry run has looked at. */
  ghost predicate Importable(h: HashFunction, s: StoreState, logbook: Uuid, e: Envelope) {
    Unsupported(h, e).None? && e.logbookId == logbook && e.eventId !in s.byId
  }

  ghost predicate AllImportable(h: HashFunction, s: StoreState, logbook: Uuid, tail: seq<Envelope>) {
    forall i {:trigger tail[i]} :: 0 <= i < |tail| ==> Importable(h, s, logbook, tail[i])
  }

  /** Any import, complete or not, keeps the store valid and only extends logs. */
  lemma {:induction false} ImportKeepsValid(h: HashFunction, s: StoreState, logbook: Uuid, tail: seq<Envelope>)
    requires Valid(h, s)
    ensures Valid(h, ImportTail(h, s, tail).state)
    ensures IsPrefix(s.Log(logbook), ImportTail(h, s, tail).state.Log(logbook))
    decreases |tail|
  {
    hide Valid, RemoteAppend, RemoteVerdict;
    if tail != [] && !RemoteVerdict(h, s, tail[0]).Refuse? {
      var s1 := RemoteAppend(h, s, tail[0]);
      RemoteAppendValid(h, s, tail[0]);
      ImportKeepsValid(h, s1, logbook, tail[1..]);
      PrefixTransitive(s.Log(logbook), s1.Log(logbook), ImportTail(h, s, tail).state.Log(logbook));
    }
  }

  /** A log gains one event per tail event only if all of them belong to it and
      were importable from the start. */
  lemma {:induction false} ImportBound(h: HashFunction, s: StoreState, logbook: Uuid, tail: seq<Envelope>)
    requires Valid(h, s)
    ensures |ImportTail(h, s, tail).state.Log(logbook)| <= |s.Log(logbook)| + |tail|
    ensures |ImportTail(h, s, tail).state.Log(logbook)| == |s.Log(logbook)| + |tail| ==> AllImportable(h, s, logbook, tail)
    decreases |tail|
  {
    hide Valid, RemoteAppend, RemoteVerdict;
    if tail != [] && !RemoteVerdict(h, s, tail[0]).Refuse? {
      var s1 := RemoteAppend(h, s, tail[0]);
      RemoteAppendValid(h, s, tail[0]);
      ImportBound(h, s1, logbook, tail[1..]);
      if |ImportTail(h, s, tail).state.Log(logbook)| == |s.Log(logbook)| + |tail| {
        forall i | 0 <= i < |tail| ensures Importable(h, s, logbook, tail[i]) {
          if i > 0 {
            assert tail[1..][i - 1] == tail[i] && Importable(h, s1, logbook, tail[i]);
          }
        }
      }
    }
  }

  /** The next event of a chain whose beginning is the log is appended, and what
      follows it stays importable. */
  lemma ImportOne(h: HashFunction, s: StoreState, logbook: Uuid, events: seq<Envelope>, n: nat)
    requires Valid(h, s) && ValidChain(h, events) && n < |events| && s.Log(logbook) == events[..n]
    requires Importable(h, s, logbook, events[n])
    ensures RemoteVerdict(h, s, events[n]).Append?
    ensures var s1 := RemoteAppend(h, s, events[n]);
      Valid(h, s1) && s1.Log(logbook) == events[..n + 1] && s1.byId == s.byId[events[n].eventId := events[n]] &&
      forall lb :: lb != logbook ==> s1.Log(lb) == s.Log(lb)
  {
    var e := events[n];
    assert LinkAt(h, events, n) && PreviousOf(events, n) == Head(events[..n]);
    assert e.previousHash == Head(events[..n]) && Unsupported(h, e).None? && e.logbookId == logbook && e.eventId !in s.byId;
    assert events[..n + 1] == events[..n] + [e];
    hide *;
    ValidLog(h, s, logbook);
    RemoteAppendValid(h, s, e);
  }

  lemma RestImportable(h: HashFunction, s: StoreState, logbook: Uuid, events: seq<Envelope>, n: nat, s1: StoreState)
    requires ValidChain(h, events) && n < |events| && AllImportable(h, s, logbook, events[n..])
    requires s1.byId == s.byId[events[n].eventId := events[n]]
    ensures Importable(h, s, logbook, events[n]) && AllImportable(h, s1, logbook, events[n + 1..])
  {
    hide Unsupported;
    var tail, rest := events[n..], events[n + 1..];
    assert tail[0] == events[n];
    forall i | 0 <= i < |rest| ensures Importable(h, s1, logbook, rest[i]) {
      assert rest[i] == tail[i + 1] == events[n + 1 + i];
    }
  }

  /** The loop meets no refusal on importable events that continue the log. */
  lemma {:induction false} ImportRuns(h: HashFunction, s: StoreState, logbook: Uuid, events: seq<Envelope>, n: nat)
    requires Valid(h, s) && ValidChain(h, events) && n <= |events| && s.Log(logbook) == events[..n]
    requires AllImportable(h, s, logbook, events[n..])
    ensures var run := ImportTail(h, s, events[n..]);
      run.error.None? && run.imported == |events| - n && run.state.Log(logbook) == events &&
      forall lb :: lb != logbook ==> run.state.Log(lb) == s.Log(lb)
    decreases |events| - n
  {
    hide Valid, ValidChain, RemoteAppend, RemoteVerdict, AllImportable, Importable;
    if n == |events| {
      assert events[..n] == events && events[n..] == [];
    } else {
      var s1 := RemoteAppend(h, s, events[n]);
      assert events[n..][0] == events[n] && events[n..][1..] == events[n + 1..];
      assert Importable(h, s, logbook, events[n]) by { FirstImportable(h, s, logbook, events, n); }
      ImportOne(h, s, logbook, events, n);
      RestImportable(h, s, logbook, events, n, s1);
      ImportRuns(h, s1, logbook, events, n + 1);
    }
  }

  lemma FirstImportable(h: HashFunction, s: StoreState, logbook: Uuid, events: seq<Envelope>, n: nat)
    requires n < |events| && AllImportable(h, s, logbook, events[n..])
    ensures Importable(h, s, logbook, events[n])
  {
    assert events[n..][0] == events[n];
  }

  /** After a successful dry run, the import makes the local log equal to the
      backup exactly when every missing event is supported, belongs to this
      logbook, and has an id the store does not know under any logbook. It then
      counts exactly the missing events and leaves every other logbook alone. */
  lemma ImportCompletesIff(h: HashFunction, s: StoreState, logbook: Uuid, backup: BackupFile)
    requires Valid(h, s) && DryRunOk(h, backup, logbook, s.Log(logbook))
    ensures var events := backup.events.value;
      var n := |s.Log(logbook)|;
      var run := ImportTail(h, s, events[n..]);
      && (run.state.Log(logbook) == events <==> AllImportable(h, s, logbook, events[n..]))
      && (run.state.Log(logbook) == events ==>
           run.error.None? && run.imported == |events| - n &&
           forall lb :: lb != logbook ==> run.state.Log(lb) == s.Log(lb))
  {
    hide Valid, ImportTail;
    var events := backup.events.value;
    var n := |s.Log(logbook)|;
    ImportBound(h, s, logbook, events[n..]);
    if AllImportable(h, s, logbook, events[n..]) {
      ImportRuns(h, s, logbook, events, n);
    }
  }

  /** A second import of the same backup passes its dry run and appends nothing. */
  lemma SecondImportAppendsNothing(h: HashFunction, s: StoreState, logbook: Uuid, backup: BackupFile)
    requires Valid(h, s) && DryRunOk(h, backup, logbook, s.Log(logbook))
    requires AllImportable(h, s, logbook, backup.events.value[|s.Log(logbook)|..])
    ensures var after := ImportTail(h, s, backup.events.value[|s.Log(logbook)|..]).state;
      && DryRunOk(h, backup, logbook, after.Log(logbook))
      && ImportTail(h, after, backup.events.value[|after.Log(logbook)|..]) == ImportRun(after, 0, None)
  {
    hide Valid, ImportTail;
    ImportCompletesIff(h, s, logbook, backup);
    var events := backup.events.value;
    assert events[..|events|] == events;
    var after := ImportTail(h, s, events[|s.Log(logbook)|..]).state;
    assert events[|after.Log(logbook)|..] == [];
    ImportNothing(h, after);
  }

  /** An import that stopped after any k appends can simply be run again: the dry
      run still succeeds, it skips what is there, and the log ends as the backup. */
  lemma InterruptedImportResumes(h: HashFunction, s: StoreState, logbook: Uuid, backup: BackupFile, k: nat)
    requires Valid(h, s) && DryRunOk(h, backup, logbook, s.Log(logbook))
    requires AllImportable(h, s, logbook, backup.events.value[|s.Log(logbook)|..])
    requires k <= |backup.events.value| - |s.Log(logbook)|
    ensures var events := backup.events.value;
      var n := |s.Log(logbook)|;
      var stopped := ImportTail(h, s, events[n..][..k]).state;
      && stopped.Log(logbook) == events[..n + k]
      && DryRunOk(h, backup, logbook, stopped.Log(logbook))
      && ImportTail(h, stopped, events[n + k..]).state.Log(logbook) == events
  {
    hide Valid, ImportTail;
    var events := backup.events.value;
    var n := |s.Log(logbook)|;
    var cut := events[..n + k];
    ChainPrefix(h, events, n + k);
    assert cut[n..] == events[n..][..k] && cut[..n] == events[..n];
    ImportRuns(h, s, logbook, cut, n);
    var stopped := ImportTail(h, s, cut[n..]).state;
    StillImportable(h, s, logbook, events, n, k);
    ImportKeepsValid(h, s, logbook, cut[n..]);
    ImportRuns(h, stopped, logbook, events, n + k);
  }

  /** The events not yet appended keep their ids unknown. */
  lemma {:induction false} StillImportable(h: HashFunction, s: StoreState, logbook: Uuid, events: seq<Envelope>, n: nat, k: nat)
    requires Valid(h, s) && ValidChain(h, events) && n + k <= |events| && s.Log(logbook) == events[..n]
    requires AllImportable(h, s, logbook, events[n..])
    ensures AllImportable(h, ImportTail(h, s, events[n..][..k]).state, logbook, events[n + k..])
    decreases k
  {
    hide Valid, ValidChain, RemoteAppend, RemoteVerdict, AllImportable, Importable;
    if k > 0 {
      var s1 := RemoteAppend(h, s, events[n]);
      assert events[n..][..k][0] == events[n] && events[n..][..k][1..] == events[n + 1..][..k - 1];
      FirstImportable(h, s, logbook, events, n);
      ImportOne(h, s, logbook, events, n);
      RestImportable(h, s, logbook, events, n, s1);
      StillImportable(h, s1, logbook, events, n + 1, k - 1);
    } else {
      assert events[n..][..0] == [];
    }
  }

  // ----- export, then restore elsewhere -----

  /** handle_backup_export: a version 1 manifest and the whole local log. */
  function Export(s: StoreState, logbook: Uuid): BackupFile {
    BackupFile(Some(Manifest(Some(1), Some(logbook))), Ok(s.Log(logbook)))
  }

  /** Restoring an export into an empty profile always passes the dry run, but it
      reproduces the log exactly when every event has a type and schema version
      the receiving side supports: local appends are not limited to those. */
  lemma RestoreIntoEmpty(h: HashFunction, s: StoreState, logbook: Uuid)
    requires Valid(h, s)
    ensures DryRunOk(h, Export(s, logbook), logbook, EMPTY.Log(logbook))
    ensures ImportTail(h, EMPTY, s.Log(logbook)).state.Log(logbook) == s.Log(logbook) <==>
      forall e :: e in s.Log(logbook) ==> e.schemaVersion == 1 && SupportedType(e.eventType)
  {
    EmptyValid(h);
    var log := s.Log(logbook);
    ValidLog(h, s, logbook);
    assert EMPTY.Log(logbook) == [] && log[0..] == log;
    ImportCompletesIff(h, EMPTY, logbook, Export(s, logbook));
    LogHolds(s, logbook);
    forall i | 0 <= i < |log|
      ensures Importable(h, EMPTY, logbook, log[i]) <==> log[i].schemaVersion == 1 && SupportedType(log[i].eventType)
    {
      assert LinkAt(h, log, i);
    }
  }

  /** A log that begins with an emergency-communications event, which the proposal
      pipeline does write, cannot be restored at all. */
  lemma EmergencyEventBlocksRestore(h: HashFunction, s: StoreState, logbook: Uuid)
    requires Valid(h, s) && s.Log(logbook) != []
    requires s.Log(logbook)[0].eventType == "official.log.emcomm.incident.opened" && s.Log(logbook)[0].schemaVersion == 1
    ensures ImportTail(h, EMPTY, s.Log(logbook)) == ImportRun(EMPTY, 0, Some(UnsupportedEventType))
  {
    var log := s.Log(logbook);
    ValidLog(h, s, logbook);
    assert LinkAt(h, log, 0);
    assert !SupportedType("official.log.emcomm.incident.opened");
  }
}
