/** The texts of the errors a push ends with, and which of them read as a divergence
    (crates/ham-core/src/store.rs:33-56, crates/ham-core/src/sync/mod.rs:741-752 and
    1250-1280). */
module PushErrors {
  import opened Basics
  import opened Text
  import opened Event
  import opened StoreSpec
  import UuidText

  /** How an optional hash is shown for debugging. */
  type Debug = Option<string> -> string

  const PREVIOUS_HASH := "previous hash"
  const DOES_NOT_CONNECT := "does not connect"

  /** `head` is the server's head the event should have continued. */
  function FaultText(debug: Debug, head: Option<string>, e: Envelope, error: StoreError): string {
    var id := UuidText.ShowUuid(e.eventId);
    match error
    case InvalidRemoteHash => "remote event " + id + " has an invalid hash"
    case UnsupportedSchemaVersion => "remote event " + id + " uses unsupported schema version " + ShowNat(e.schemaVersion)
    case UnsupportedEventType => "remote event " + id + " has unsupported event type " + e.eventType
    case DuplicateEventConflict => "event id " + id + " already exists with different content"
    case RemotePreviousHashMismatch =>
      "remote event " + id + " " + (PREVIOUS_HASH + " " + debug(e.previousHash) + " does not connect to local head " + debug(head))
    case _ => ""  // not an error of a push
  }

  /** The test of push_replication_status on one text. */
  predicate Diverging(text: string) {
    Mentions(text, DOES_NOT_CONNECT) || Mentions(text, PREVIOUS_HASH)
  }

  predicate HasPair(s: string, a: char, b: char) {
    exists i :: 0 <= i < |s| - 1 && s[i] == a && s[i + 1] == b
  }

  /** The two chars with which each of the two phrases begins. */
  predicate NoBeginning(s: string) {
    !HasPair(s, 'p', 'r') && !HasPair(s, 'd', 'o')
  }

  lemma MentionStarts(s: string, part: string, i: int)
    requires |part| >= 2 && MentionsAt(s, part, i)
    ensures s[i] == part[0] && s[i + 1] == part[1] && HasPair(s, part[0], part[1])
  {
    assert s[i..i + |part|][0] == s[i] && s[i..i + |part|][1] == s[i + 1];
  }

  lemma MentionHasPair(s: string, part: string)
    requires |part| >= 2
    ensures Mentions(s, part) ==> HasPair(s, part[0], part[1])
  {
    if i :| 0 <= i <= |s| && MentionsAt(s, part, i) {
      MentionStarts(s, part, i);
    }
  }

  lemma NoBeginningNotDiverging(s: string)
    requires NoBeginning(s)
    ensures !Diverging(s)
  {
    MentionHasPair(s, DOES_NOT_CONNECT);
    MentionHasPair(s, PREVIOUS_HASH);
  }

  lemma JoinedBeginnings(x: string, y: string)
    requires NoBeginning(x) && NoBeginning(y)
    requires x == "" || (x[|x| - 1] != 'p' && x[|x| - 1] != 'd') || y == "" || (y[0] != 'r' && y[0] != 'o')
    ensures NoBeginning(x + y)
  {
    var s := x + y;
    forall i | 0 <= i < |s| - 1 ensures !(s[i] == 'p' && s[i + 1] == 'r') && !(s[i] == 'd' && s[i + 1] == 'o') {
      if i + 1 < |x| {
        assert s[i] == x[i] && s[i + 1] == x[i + 1];
      } else if i >= |x| {
        assert s[i] == y[i - |x|] && s[i + 1] == y[i + 1 - |x|];
      }
    }
  }

  lemma MentionMoved(x: string, y: string, part: string, i: int)
    requires 0 <= i <= |y|
    ensures MentionsAt(x + y, part, |x| + i) <==> MentionsAt(y, part, i)
  {
    if i + |part| <= |y| {
      assert (x + y)[|x| + i..|x| + i + |part|] == y[i..i + |part|];
    }
  }

  /** A beginning of a text in which no phrase can begin does not matter. */
  lemma MentionsBehind(x: string, y: string, part: string)
    requires |part| >= 2 && !HasPair(x, part[0], part[1]) && (x != "" ==> x[|x| - 1] != part[0])
    ensures Mentions(x + y, part) <==> Mentions(y, part)
  {
    forall i | 0 <= i <= |x + y| && MentionsAt(x + y, part, i) ensures i >= |x| {
      MentionStarts(x + y, part, i);
    }
    forall i | 0 <= i <= |y| ensures MentionsAt(x + y, part, |x| + i) <==> MentionsAt(y, part, i) {
      MentionMoved(x, y, part, i);
    }
    if i :| 0 <= i <= |x + y| && MentionsAt(x + y, part, i) {
      assert MentionsAt(y, part, i - |x|);
    }
  }

  lemma RemoteEventPlain()
    ensures NoBeginning("remote event ")
  {
  }

  lemma InvalidHashPlain()
    ensures NoBeginning(" has an invalid hash")
  {
  }

  lemma VersionPlain()
    ensures NoBeginning(" uses unsupported schema version ")
  {
  }

  lemma TypePlain()
    ensures NoBeginning(" has unsupported event type ")
  {
  }

  lemma EventIdPlain()
    ensures NoBeginning("event id ")
  {
  }

  lemma ConflictPlain()
    ensures NoBeginning(" already exists with different content")
  {
  }

  lemma IdPlain(id: Uuid)
    ensures NoBeginning(UuidText.ShowUuid(id))
    ensures var s := UuidText.ShowUuid(id); s != "" && s[0] != 'r' && s[0] != 'o' && s[|s| - 1] != 'p'
  {
    var s := UuidText.ShowUuid(id);
    forall i | 0 <= i < |s| ensures s[i] == '-' || IsLowerHex(s[i]) {
    }
  }

  lemma NumberPlain(n: nat)
    ensures NoBeginning(ShowNat(n)) && ShowNat(n)[0] != 'r' && ShowNat(n)[0] != 'o'
  {
    var s := ShowNat(n);
    assert forall i :: 0 <= i < |s| ==> IsDigit(s[i]);
  }

  /** A text around an id, none of whose parts a phrase can begin in. */
  lemma AroundId(before: string, id: Uuid, after: string)
    requires NoBeginning(before) && NoBeginning(after)
    requires before != "" && before[|before| - 1] == ' ' && after != "" && after[0] == ' '
    ensures NoBeginning(before + UuidText.ShowUuid(id) + after)
  {
    var s := UuidText.ShowUuid(id);
    IdPlain(id);
    JoinedBeginnings(before, s);
    JoinedBeginnings(before + s, after);
  }

  /** A push's error reads as a divergence exactly when it is a previous hash that does
      not continue the server's head, or an unsupported event type whose own text holds
      one of the two phrases. */
  lemma DivergingExactly(debug: Debug, head: Option<string>, e: Envelope, error: StoreError)
    ensures Diverging(FaultText(debug, head, e, error)) <==>
      error.RemotePreviousHashMismatch? || (error.UnsupportedEventType? && Diverging(e.eventType))
  {
    var id := UuidText.ShowUuid(e.eventId);
    RemoteEventPlain();
    hide Diverging, HasPair, NoBeginning;
    match error {
      case InvalidRemoteHash =>
        InvalidHashPlain();
        AroundId("remote event ", e.eventId, " has an invalid hash");
        NoBeginningNotDiverging(FaultText(debug, head, e, error));
      case UnsupportedSchemaVersion =>
        VersionPlain();
        AroundId("remote event ", e.eventId, " uses unsupported schema version ");
        NumberPlain(e.schemaVersion);
        JoinedBeginnings("remote event " + id + " uses unsupported schema version ", ShowNat(e.schemaVersion));
        NoBeginningNotDiverging(FaultText(debug, head, e, error));
      case UnsupportedEventType =>
        TypePlain();
        AroundId("remote event ", e.eventId, " has unsupported event type ");
        TypeDecides("remote event " + id + " has unsupported event type ", e.eventType);
      case DuplicateEventConflict =>
        EventIdPlain();
        ConflictPlain();
        AroundId("event id ", e.eventId, " already exists with different content");
        NoBeginningNotDiverging(FaultText(debug, head, e, error));
      case RemotePreviousHashMismatch =>
        PreviousHashNamed("remote event " + id + " ", " " + debug(e.previousHash) + " does not connect to local head " + debug(head));
        assert FaultText(debug, head, e, error) ==
          "remote event " + id + " " + (PREVIOUS_HASH + (" " + debug(e.previousHash) + " does not connect to local head " + debug(head)));
      case _ =>
        assert FaultText(debug, head, e, error) == "";
        EmptyPlain();
        NoBeginningNotDiverging("");
    }
  }

  lemma EmptyPlain()
    ensures NoBeginning("")
  {
  }

  lemma TypeDecides(before: string, eventType: string)
    requires NoBeginning(before) && before != "" && before[|before| - 1] == ' '
    ensures Diverging(before + eventType) <==> Diverging(eventType)
  {
    MentionsBehind(before, eventType, DOES_NOT_CONNECT);
    MentionsBehind(before, eventType, PREVIOUS_HASH);
  }

  lemma PreviousHashNamed(before: string, after: string)
    ensures Diverging(before + (PREVIOUS_HASH + after))
  {
    var s := before + (PREVIOUS_HASH + after);
    assert s[|before|..|before| + |PREVIOUS_HASH|] == PREVIOUS_HASH;
    assert MentionsAt(s, PREVIOUS_HASH, |before|);
  }
}
