/** An imported log on its way to other replicas: restored from a backup, pulled by a
    peer, and pushed to the server (crates/ham-core/src/adif.rs:192-256,
    crates/ham-core/src/store.rs:292-328 and 443-494,
    crates/ham-core/src/sync/mod.rs:549-670 and 1234-1297). */
module AdifSync {
  import opened Basics
  import opened Event
  import opened Chain
  import opened StoreSpec
  import opened Backup
  import opened Replication
  import opened CloudPush
  import AdifFormat
  import AdifExport
  import AdifImport

  /** An event other stores take for a logbook. */
  predicate Portable(e: Envelope, logbook: Uuid) {
    e.schemaVersion == 1 && SupportedType(e.eventType) && e.logbookId == logbook
  }

  lemma ImportedEventPortable(h: HashFunction, job: AdifImport.Job, log: seq<Envelope>, payload: AdifImport.Json.Value, ids: AdifImport.NewIds)
    requires payload.Object?
    ensures Portable(AdifImport.OfficialEvent(h, job, log, payload, ids), job.logbook)
  {
  }

  lemma {:induction false} ImportedPortable(
    fl: AdifExport.Rounding, h: HashFunction, job: AdifImport.Job, log: seq<Envelope>, records: seq<AdifFormat.Record>, ids: seq<AdifImport.NewIds>)
    requires |ids| >= |records| && forall e :: e in log ==> Portable(e, job.logbook)
    ensures forall e :: e in AdifImport.Run(fl, h, job, log, records, ids).log ==> Portable(e, job.logbook)
  {
    hide AdifImport.Decide, AdifImport.Current, AdifImport.OfficialEvent, Portable;
    if records != [] {
      var n := |records| - 1;
      ImportedPortable(fl, h, job, log, records[..n], ids);
      var before := AdifImport.Run(fl, h, job, log, records[..n], ids);
      var d := AdifImport.Decide(fl, job, AdifImport.Current(before.log), records[n]);
      if d.Accepted? {
        ImportedEventPortable(h, job, before.log, d.payload, ids[n]);
      }
    }
  }

  function Max(a: nat, b: nat): nat {
    if a < b then b else a
  }

  /** What the server holds when so many events of a longer log have been pushed. */
  ghost predicate PushedTo(h: HashFunction, s: StoreState, logbook: Uuid, events: seq<Envelope>, n: nat, m: nat)
    requires n <= |events| && m <= |events|
  {
    var p := PushAll(h, s, events[..m]);
    && p.fault.None? && Valid(h, p.state) && p.state.Log(logbook) == events[..Max(n, m)]
    && AllImportable(h, p.state, logbook, events[Max(n, m)..])
  }

  lemma PushKnown(h: HashFunction, s: StoreState, e: Envelope)
    requires e.HashIsValid(h) && e.schemaVersion == 1 && SupportedType(e.eventType) && s.Knows(e)
    ensures PushFault(h, s, e).None?
  {
  }

  lemma PushNew(h: HashFunction, s: StoreState, e: Envelope)
    requires RemoteVerdict(h, s, e).Append?
    ensures PushFault(h, s, e).None? && !s.Knows(e) && s.Insert(e) == RemoteAppend(h, s, e)
  {
  }

  lemma PushSnoc(h: HashFunction, s: StoreState, events: seq<Envelope>, m: nat)
    requires m < |events| && PushAll(h, s, events[..m]).fault.None?
    requires PushFault(h, PushAll(h, s, events[..m]).state, events[m]).None?
    ensures var before := PushAll(h, s, events[..m]); var after := PushAll(h, s, events[..m + 1]);
      after.fault.None? && after.state == if before.state.Knows(events[m]) then before.state else before.state.Insert(events[m])
  {
    hide PushFault;
    assert events[..m + 1][..m] == events[..m];
  }

  /** Pushing an event the server has changes nothing. */
  lemma KnownStep(h: HashFunction, s: StoreState, logbook: Uuid, events: seq<Envelope>, n: nat, m: nat)
    requires n <= |events| && m < n && PushedTo(h, s, logbook, events, n, m)
    requires events[m].HashIsValid(h) && Portable(events[m], logbook)
    ensures PushedTo(h, s, logbook, events, n, m + 1)
  {
    hide Valid, AllImportable, PushAll, PushFault;
    var before := PushAll(h, s, events[..m]).state;
    InLogKnown(h, before, logbook, m);
    assert before.Log(logbook)[m] == events[m];
    PushKnown(h, before, events[m]);
    PushSnoc(h, s, events, m);
  }

  /** Pushing the next event it lacks adds that one. */
  lemma NewStep(h: HashFunction, s: StoreState, logbook: Uuid, events: seq<Envelope>, n: nat, m: nat)
    requires ValidChain(h, events) && n <= m < |events| && PushedTo(h, s, logbook, events, n, m)
    ensures PushedTo(h, s, logbook, events, n, m + 1)
  {
    hide Valid, AllImportable, PushAll, PushFault, ValidChain, RemoteVerdict;
    var before := PushAll(h, s, events[..m]).state;
    FirstImportable(h, before, logbook, events, m);
    ImportOne(h, before, logbook, events, m);
    RestImportable(h, before, logbook, events, m, RemoteAppend(h, before, events[m]));
    PushNew(h, before, events[m]);
    PushSnoc(h, s, events, m);
  }

  lemma {:induction false} PushReaches(h: HashFunction, s: StoreState, logbook: Uuid, events: seq<Envelope>, n: nat, m: nat)
    requires Valid(h, s) && ValidChain(h, events) && n <= |events| && m <= |events| && s.Log(logbook) == events[..n]
    requires AllImportable(h, s, logbook, events[n..]) && forall e :: e in events ==> Portable(e, logbook)
    ensures PushedTo(h, s, logbook, events, n, m)
    decreases m
  {
    hide *;
    if m == 0 {
      PushNothing(h, s, logbook, events, n);
    } else {
      PushReaches(h, s, logbook, events, n, m - 1);
      EventSound(h, logbook, events, m - 1);
      if m <= n {
        KnownStep(h, s, logbook, events, n, m - 1);
      } else {
        NewStep(h, s, logbook, events, n, m - 1);
      }
    }
  }

  lemma PushNothing(h: HashFunction, s: StoreState, logbook: Uuid, events: seq<Envelope>, n: nat)
    requires Valid(h, s) && n <= |events| && s.Log(logbook) == events[..n] && AllImportable(h, s, logbook, events[n..])
    ensures PushedTo(h, s, logbook, events, n, 0)
  {
    hide Valid, AllImportable;
    assert events[..0] == [];
  }

  lemma EventSound(h: HashFunction, logbook: Uuid, events: seq<Envelope>, i: nat)
    requires ValidChain(h, events) && i < |events| && forall e :: e in events ==> Portable(e, logbook)
    ensures events[i].HashIsValid(h) && Portable(events[i], logbook)
  {
    assert LinkAt(h, events, i);
    assert events[i] in events;
  }

  lemma InLogKnown(h: HashFunction, s: StoreState, logbook: Uuid, i: nat)
    requires Valid(h, s) && i < |s.Log(logbook)|
    ensures s.Knows(s.Log(logbook)[i])
  {
    LogHolds(s, logbook);
  }

  /** The log after an import reaches every replica that holds a beginning of it and
      knows none of the missing ids: a backup of it restores, a pull of it verifies,
      and a push of it is taken whole. */
  lemma ImportedLogTravels(
    fl: AdifExport.Rounding, h: HashFunction, job: AdifImport.Job, log: seq<Envelope>, records: seq<AdifFormat.Record>, ids: seq<AdifImport.NewIds>,
    s: StoreState)
    requires |ids| >= |records| && AdifImport.Unused(log, ids) && ValidChain(h, log) && forall e :: e in log ==> Portable(e, job.logbook)
    requires Valid(h, s) && IsPrefix(s.Log(job.logbook), AdifImport.Run(fl, h, job, log, records, ids).log)
    requires forall e :: e in AdifImport.Run(fl, h, job, log, records, ids).log[|s.Log(job.logbook)|..] ==> e.eventId !in s.byId
    ensures var all := AdifImport.Run(fl, h, job, log, records, ids).log; var tail := all[|s.Log(job.logbook)|..];
      && ImportTail(h, s, tail).error.None? && ImportTail(h, s, tail).state.Log(job.logbook) == all
      && IncomingOk(h, job.logbook, s.HeadOf(job.logbook), tail)
      && PushAll(h, s, all).fault.None? && PushAll(h, s, all).state.Log(job.logbook) == all
  {
    var all, n := AdifImport.Run(fl, h, job, log, records, ids).log, |s.Log(job.logbook)|;
    ImportedPortable(fl, h, job, log, records, ids);
    AdifImport.RunKeepsChain(fl, h, job, log, records, ids);
    hide AdifImport.Run, AdifImport.Unused, Valid, ImportTail, PushAll, IncomingOk;
    TailImportable(h, s, job.logbook, all);
    ImportRuns(h, s, job.logbook, all, n);
    PullReachesPeer(h, s, job.logbook, all);
    PushReaches(h, s, job.logbook, all, n, |all|);
    assert all[..|all|] == all;
  }

  lemma TailImportable(h: HashFunction, s: StoreState, logbook: Uuid, all: seq<Envelope>)
    requires ValidChain(h, all) && IsPrefix(s.Log(logbook), all) && forall e :: e in all ==> Portable(e, logbook)
    requires forall e :: e in all[|s.Log(logbook)|..] ==> e.eventId !in s.byId
    ensures AllImportable(h, s, logbook, all[|s.Log(logbook)|..])
  {
    var n := |s.Log(logbook)|;
    var tail := all[n..];
    forall i | 0 <= i < |tail| ensures Importable(h, s, logbook, tail[i]) {
      assert tail[i] == all[n + i] && tail[i] in tail && tail[i] in all;
      assert LinkAt(h, all, n + i);
    }
  }

  /** In particular it restores into an empty profile, to the last event. */
  lemma ImportedLogRestores(
    fl: AdifExport.Rounding, h: HashFunction, job: AdifImport.Job, log: seq<Envelope>, records: seq<AdifFormat.Record>, ids: seq<AdifImport.NewIds>)
    requires |ids| >= |records| && AdifImport.Unused(log, ids) && ValidChain(h, log) && forall e :: e in log ==> Portable(e, job.logbook)
    ensures var all := AdifImport.Run(fl, h, job, log, records, ids).log;
      ImportTail(h, EMPTY, all).error.None? && ImportTail(h, EMPTY, all).state.Log(job.logbook) == all
  {
    var all := AdifImport.Run(fl, h, job, log, records, ids).log;
    EmptyValid(h);
    assert EMPTY.Log(job.logbook) == [] && all[0..] == all;
    hide AdifImport.Run, AdifImport.Unused, Valid, ImportTail;
    ImportedLogTravels(fl, h, job, log, records, ids, EMPTY);
  }
}
