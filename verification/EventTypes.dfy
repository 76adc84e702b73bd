/** The event types a store takes from elsewhere (crates/ham-core/src/store.rs:443-494),
    against the groups of changes they name and the changes the projection folds in. */
module EventTypes {
  import opened Basics
  import opened Event
  import opened StoreSpec
  import Projection

  /** What may happen in each group of official events. */
  const ACTIONS: map<string, set<string>> := map[
    "qso" := {"created", "corrected", "deleted", "restored", "note_added", "activation_linked", "activation_unlinked"},
    "activation" := {"created", "updated", "started", "ended", "cancelled", "note_added"},
    "upload" := {"queued", "completed", "failed"},
    "net.template" := {"created", "updated"},
    "net.session" := {"started", "ended", "cancelled"},
    "net.checkin" := {"created", "updated", "deleted"},
    "net.traffic" := {"created", "updated"},
    "net.report" := {"exported"}]

  predicate NamesAction(eventType: string, group: string, action: string) {
    group in ACTIONS && action in ACTIONS[group] && eventType == "official.log." + group + "." + action
  }

  lemma QsoChangeTypes()
    ensures "official.log." + "qso" + "." + "created" == "official.log.qso.created"
    ensures NamesAction("official.log.qso.created", "qso", "created")
    ensures "official.log." + "qso" + "." + "corrected" == "official.log.qso.corrected"
    ensures NamesAction("official.log.qso.corrected", "qso", "corrected")
  {
  }

  lemma OtherQsoChangeTypes()
    ensures "official.log." + "qso" + "." + "deleted" == "official.log.qso.deleted"
    ensures NamesAction("official.log.qso.deleted", "qso", "deleted")
    ensures "official.log." + "qso" + "." + "restored" == "official.log.qso.restored"
    ensures NamesAction("official.log.qso.restored", "qso", "restored")
  {
  }

  lemma QsoLinkTypes()
    ensures "official.log." + "qso" + "." + "note_added" == "official.log.qso.note_added"
    ensures NamesAction("official.log.qso.note_added", "qso", "note_added")
    ensures "official.log." + "qso" + "." + "activation_linked" == "official.log.qso.activation_linked"
    ensures NamesAction("official.log.qso.activation_linked", "qso", "activation_linked")
  {
  }

  lemma OtherQsoLinkTypes()
    ensures "official.log." + "qso" + "." + "activation_unlinked" == "official.log.qso.activation_unlinked"
    ensures NamesAction("official.log.qso.activation_unlinked", "qso", "activation_unlinked")
  {
  }

  lemma ActivationStartTypes()
    ensures "official.log." + "activation" + "." + "created" == "official.log.activation.created"
    ensures NamesAction("official.log.activation.created", "activation", "created")
    ensures "official.log." + "activation" + "." + "updated" == "official.log.activation.updated"
    ensures NamesAction("official.log.activation.updated", "activation", "updated")
  {
  }

  lemma OtherActivationStartTypes()
    ensures "official.log." + "activation" + "." + "started" == "official.log.activation.started"
    ensures NamesAction("official.log.activation.started", "activation", "started")
  {
  }

  lemma ActivationEndTypes()
    ensures "official.log." + "activation" + "." + "ended" == "official.log.activation.ended"
    ensures NamesAction("official.log.activation.ended", "activation", "ended")
    ensures "official.log." + "activation" + "." + "cancelled" == "official.log.activation.cancelled"
    ensures NamesAction("official.log.activation.cancelled", "activation", "cancelled")
  {
  }

  lemma OtherActivationEndTypes()
    ensures "official.log." + "activation" + "." + "note_added" == "official.log.activation.note_added"
    ensures NamesAction("official.log.activation.note_added", "activation", "note_added")
  {
  }

  lemma UploadTypes()
    ensures "official.log." + "upload" + "." + "queued" == "official.log.upload.queued"
    ensures NamesAction("official.log.upload.queued", "upload", "queued")
    ensures "official.log." + "upload" + "." + "completed" == "official.log.upload.completed"
    ensures NamesAction("official.log.upload.completed", "upload", "completed")
  {
  }

  lemma OtherUploadTypes()
    ensures "official.log." + "upload" + "." + "failed" == "official.log.upload.failed"
    ensures NamesAction("official.log.upload.failed", "upload", "failed")
  {
  }

  lemma TemplateTypes()
    ensures "official.log." + "net.template" + "." + "created" == "official.log.net.template.created"
    ensures NamesAction("official.log.net.template.created", "net.template", "created")
    ensures "official.log." + "net.template" + "." + "updated" == "official.log.net.template.updated"
    ensures NamesAction("official.log.net.template.updated", "net.template", "updated")
  {
  }

  lemma SessionTypes()
    ensures "official.log." + "net.session" + "." + "started" == "official.log.net.session.started"
    ensures NamesAction("official.log.net.session.started", "net.session", "started")
    ensures "official.log." + "net.session" + "." + "ended" == "official.log.net.session.ended"
    ensures NamesAction("official.log.net.session.ended", "net.session", "ended")
  {
  }

  lemma OtherSessionTypes()
    ensures "official.log." + "net.session" + "." + "cancelled" == "official.log.net.session.cancelled"
    ensures NamesAction("official.log.net.session.cancelled", "net.session", "cancelled")
  {
  }

  lemma CheckinTypes()
    ensures "official.log." + "net.checkin" + "." + "created" == "official.log.net.checkin.created"
    ensures NamesAction("official.log.net.checkin.created", "net.checkin", "created")
    ensures "official.log." + "net.checkin" + "." + "updated" == "official.log.net.checkin.updated"
    ensures NamesAction("official.log.net.checkin.updated", "net.checkin", "updated")
  {
  }

  lemma OtherCheckinTypes()
    ensures "official.log." + "net.checkin" + "." + "deleted" == "official.log.net.checkin.deleted"
    ensures NamesAction("official.log.net.checkin.deleted", "net.checkin", "deleted")
  {
  }

  lemma TrafficTypes()
    ensures "official.log." + "net.traffic" + "." + "created" == "official.log.net.traffic.created"
    ensures NamesAction("official.log.net.traffic.created", "net.traffic", "created")
    ensures "official.log." + "net.traffic" + "." + "updated" == "official.log.net.traffic.updated"
    ensures NamesAction("official.log.net.traffic.updated", "net.traffic", "updated")
  {
  }

  lemma ReportTypes()
    ensures "official.log." + "net.report" + "." + "exported" == "official.log.net.report.exported"
    ensures NamesAction("official.log.net.report.exported", "net.report", "exported")
  {
  }

  lemma TypesSpelled(eventType: string)
    requires eventType in SUPPORTED_TYPES
    ensures exists group, action :: NamesAction(eventType, group, action)
  {
    QsoChangeTypes();
    OtherQsoChangeTypes();
    QsoLinkTypes();
    OtherQsoLinkTypes();
    ActivationStartTypes();
    OtherActivationStartTypes();
    ActivationEndTypes();
    OtherActivationEndTypes();
    UploadTypes();
    OtherUploadTypes();
    TemplateTypes();
    SessionTypes();
    OtherSessionTypes();
    CheckinTypes();
    OtherCheckinTypes();
    TrafficTypes();
    ReportTypes();
    hide NamesAction;
  }

  lemma ActionsSupported(eventType: string, group: string, action: string)
    requires NamesAction(eventType, group, action)
    ensures eventType in SUPPORTED_TYPES
  {
    QsoChangeTypes();
    OtherQsoChangeTypes();
    QsoLinkTypes();
    OtherQsoLinkTypes();
    ActivationStartTypes();
    OtherActivationStartTypes();
    ActivationEndTypes();
    OtherActivationEndTypes();
    UploadTypes();
    OtherUploadTypes();
    TemplateTypes();
    SessionTypes();
    OtherSessionTypes();
    CheckinTypes();
    OtherCheckinTypes();
    TrafficTypes();
    ReportTypes();
  }

  /** The supported types, group by group. */
  lemma SupportedExactly(eventType: string)
    ensures SupportedType(eventType) <==> exists group, action :: NamesAction(eventType, group, action)
  {
    hide NamesAction;
    if SupportedType(eventType) {
      TypesSpelled(eventType);
    }
    if group, action :| NamesAction(eventType, group, action) {
      ActionsSupported(eventType, group, action);
    }
  }

  /** Whatever event changes the current QSOs can be appended from elsewhere: valid, of
      schema 1, new, and continuing the head is all it takes. */
  lemma FoldedTypesAppend(h: HashFunction, s: StoreState, e: Envelope, p: Projection.Qsos)
    requires Projection.Apply(p, e) != Some(p)
    requires e.HashIsValid(h) && e.schemaVersion == 1 && e.eventId !in s.byId && e.previousHash == s.HeadOf(e.logbookId)
    ensures RemoteVerdict(h, s, e) == Append
  {
    hide Projection.WithQsoId, Projection.Merge;
    assert e.eventType in SUPPORTED_TYPES;
  }
}
