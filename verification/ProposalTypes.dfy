/** The proposal types a conflict review may be resolved with
    (crates/ham-client/src/serve.rs:4306-4350), group by group. */
module ProposalTypes {
  import opened Basics
  import opened Text
  import opened CorrectiveReview

  const VERBS: map<string, set<string>> := map[
    "qso" := {"create", "correct", "delete", "restore", "note.add", "activation.link", "activation.unlink"},
    "activation" := {"create", "start", "update", "end", "cancel", "note.add"},
    "net.template" := {"create", "update"},
    "net.session" := {"start", "end", "cancel"},
    "net.checkin" := {"create", "update", "delete"},
    "net.traffic" := {"create", "update"},
    "net.report" := {"export"}]

  predicate NamesVerb(proposalType: string, group: string, verb: string) {
    group in VERBS && verb in VERBS[group] && proposalType == "proposal." + group + "." + verb
  }

  /** Something new comes to be, which nothing else has to be named for. */
  predicate Begins(verb: string) {
    verb == "create" || verb == "start"
  }

  lemma QsoTypes()
    ensures "proposal." + "qso" + "." + "create" == "proposal.qso.create"
    ensures NamesVerb("proposal.qso.create", "qso", "create")
    ensures "proposal." + "qso" + "." + "correct" == "proposal.qso.correct"
    ensures NamesVerb("proposal.qso.correct", "qso", "correct")
  {
  }

  lemma OtherQsoTypes()
    ensures "proposal." + "qso" + "." + "delete" == "proposal.qso.delete"
    ensures NamesVerb("proposal.qso.delete", "qso", "delete")
    ensures "proposal." + "qso" + "." + "restore" == "proposal.qso.restore"
    ensures NamesVerb("proposal.qso.restore", "qso", "restore")
  {
  }

  lemma QsoMoreTypes()
    ensures "proposal." + "qso" + "." + "note.add" == "proposal.qso.note.add"
    ensures NamesVerb("proposal.qso.note.add", "qso", "note.add")
    ensures "proposal." + "qso" + "." + "activation.link" == "proposal.qso.activation.link"
    ensures NamesVerb("proposal.qso.activation.link", "qso", "activation.link")
  {
  }

  lemma OtherQsoMoreTypes()
    ensures "proposal." + "qso" + "." + "activation.unlink" == "proposal.qso.activation.unlink"
    ensures NamesVerb("proposal.qso.activation.unlink", "qso", "activation.unlink")
  {
  }

  lemma ActivationTypes()
    ensures "proposal." + "activation" + "." + "create" == "proposal.activation.create"
    ensures NamesVerb("proposal.activation.create", "activation", "create")
    ensures "proposal." + "activation" + "." + "start" == "proposal.activation.start"
    ensures NamesVerb("proposal.activation.start", "activation", "start")
  {
  }

  lemma OtherActivationTypes()
    ensures "proposal." + "activation" + "." + "update" == "proposal.activation.update"
    ensures NamesVerb("proposal.activation.update", "activation", "update")
  {
  }

  lemma ActivationMoreTypes()
    ensures "proposal." + "activation" + "." + "end" == "proposal.activation.end"
    ensures NamesVerb("proposal.activation.end", "activation", "end")
    ensures "proposal." + "activation" + "." + "cancel" == "proposal.activation.cancel"
    ensures NamesVerb("proposal.activation.cancel", "activation", "cancel")
  {
  }

  lemma OtherActivationMoreTypes()
    ensures "proposal." + "activation" + "." + "note.add" == "proposal.activation.note.add"
    ensures NamesVerb("proposal.activation.note.add", "activation", "note.add")
  {
  }

  lemma TemplateTypes()
    ensures "proposal." + "net.template" + "." + "create" == "proposal.net.template.create"
    ensures NamesVerb("proposal.net.template.create", "net.template", "create")
    ensures "proposal." + "net.template" + "." + "update" == "proposal.net.template.update"
    ensures NamesVerb("proposal.net.template.update", "net.template", "update")
  {
  }

  lemma SessionTypes()
    ensures "proposal." + "net.session" + "." + "start" == "proposal.net.session.start"
    ensures NamesVerb("proposal.net.session.start", "net.session", "start")
    ensures "proposal." + "net.session" + "." + "end" == "proposal.net.session.end"
    ensures NamesVerb("proposal.net.session.end", "net.session", "end")
  {
  }

  lemma OtherSessionTypes()
    ensures "proposal." + "net.session" + "." + "cancel" == "proposal.net.session.cancel"
    ensures NamesVerb("proposal.net.session.cancel", "net.session", "cancel")
  {
  }

  lemma CheckinTypes()
    ensures "proposal." + "net.checkin" + "." + "create" == "proposal.net.checkin.create"
    ensures NamesVerb("proposal.net.checkin.create", "net.checkin", "create")
    ensures "proposal." + "net.checkin" + "." + "update" == "proposal.net.checkin.update"
    ensures NamesVerb("proposal.net.checkin.update", "net.checkin", "update")
  {
  }

  lemma OtherCheckinTypes()
    ensures "proposal." + "net.checkin" + "." + "delete" == "proposal.net.checkin.delete"
    ensures NamesVerb("proposal.net.checkin.delete", "net.checkin", "delete")
  {
  }

  lemma TrafficTypes()
    ensures "proposal." + "net.traffic" + "." + "create" == "proposal.net.traffic.create"
    ensures NamesVerb("proposal.net.traffic.create", "net.traffic", "create")
    ensures "proposal." + "net.traffic" + "." + "update" == "proposal.net.traffic.update"
    ensures NamesVerb("proposal.net.traffic.update", "net.traffic", "update")
  {
  }

  lemma ReportTypes()
    ensures "proposal." + "net.report" + "." + "export" == "proposal.net.report.export"
    ensures NamesVerb("proposal.net.report.export", "net.report", "export")
  {
  }

  lemma TypesSpelled(proposalType: string)
    requires proposalType in CORRECTIVE
    ensures exists group, verb :: NamesVerb(proposalType, group, verb)
  {
    QsoTypes();
    OtherQsoTypes();
    QsoMoreTypes();
    OtherQsoMoreTypes();
    ActivationTypes();
    OtherActivationTypes();
    ActivationMoreTypes();
    OtherActivationMoreTypes();
    TemplateTypes();
    SessionTypes();
    OtherSessionTypes();
    CheckinTypes();
    OtherCheckinTypes();
    TrafficTypes();
    ReportTypes();
    hide NamesVerb;
  }

  lemma VerbsSupported(proposalType: string, group: string, verb: string)
    requires NamesVerb(proposalType, group, verb)
    ensures proposalType in CORRECTIVE && (proposalType in CREATING <==> Begins(verb))
  {
    QsoTypes();
    OtherQsoTypes();
    QsoMoreTypes();
    OtherQsoMoreTypes();
    ActivationTypes();
    OtherActivationTypes();
    ActivationMoreTypes();
    OtherActivationMoreTypes();
    TemplateTypes();
    SessionTypes();
    OtherSessionTypes();
    CheckinTypes();
    OtherCheckinTypes();
    TrafficTypes();
    ReportTypes();
  }

  /** A proposal passes exactly when it has an object for a payload, its type without
      the white space around it names a verb of a group, and it names an entity unless
      something new begins. */
  lemma PassesExactly(p: Proposal)
    ensures ProposalFault(p).None? <==>
      p.payload.Object? && exists group, verb :: NamesVerb(Trim(p.proposalType), group, verb) && (p.entityId.Some? || Begins(verb))
  {
    var proposalType := Trim(p.proposalType);
    hide NamesVerb, Begins, Trim;
    if proposalType in CORRECTIVE {
      TypesSpelled(proposalType);
    }
    forall group, verb | NamesVerb(proposalType, group, verb)
      ensures proposalType in CORRECTIVE && (proposalType in CREATING <==> Begins(verb)) && proposalType != ""
    {
      VerbsSupported(proposalType, group, verb);
      assert "" !in CORRECTIVE;
    }
  }

  /** A request is turned away before anything is submitted exactly when it has no
      proposals, a note over 4096 bytes, a proposal that does not pass, or no open
      review of that id. */
  lemma RefusedExactly(reviews: seq<Review>, request: Request)
    ensures Refused(reviews, request) <==>
      || |request.proposals| == 0
      || (request.note.Some? && |request.note.value| > 4096)
      || (exists p :: p in request.proposals && ProposalFault(p).Some?)
      || (forall r :: r in reviews && r.id == request.reviewId ==> r.status == Resolved)
  {
    hide ProposalFault;
  }

  /** The note kept with a resolution is the one given, unless it is blank. */
  lemma NoteExactly(note: Option<string>, kept: string)
    ensures NoteKept(note) == Some(kept) <==> note == Some(kept) && Trim(kept) != ""
  {
    hide Trim;
  }
}
