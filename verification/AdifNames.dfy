/** The ADIF tags and the QSO payload keys the mapping deals with, and their
    texts (crates/ham-core/src/adif.rs:125-185 and 262-306). */
module AdifNames {
  datatype Tag =
    | Call | StationCallsign | Operator | QsoDate | TimeOn | TimeOff | Band | Freq | Mode | Submode
    | RstSent | RstRcvd | GridSquare | Name | Qth | Comment | Notes | MySig | MySigInfo | Sig | SigInfo
    | AdifVer

  function TagName(t: Tag): string {
    match t
    case Call => "CALL"
    case StationCallsign => "STATION_CALLSIGN"
    case Operator => "OPERATOR"
    case QsoDate => "QSO_DATE"
    case TimeOn => "TIME_ON"
    case TimeOff => "TIME_OFF"
    case Band => "BAND"
    case Freq => "FREQ"
    case Mode => "MODE"
    case Submode => "SUBMODE"
    case RstSent => "RST_SENT"
    case RstRcvd => "RST_RCVD"
    case GridSquare => "GRIDSQUARE"
    case Name => "NAME"
    case Qth => "QTH"
    case Comment => "COMMENT"
    case Notes => "NOTES"
    case MySig => "MY_SIG"
    case MySigInfo => "MY_SIG_INFO"
    case Sig => "SIG"
    case SigInfo => "SIG_INFO"
    case AdifVer => "ADIF_VER"
  }

  datatype Key =
    | ContactedCallsign | StationKey | OperatorKey | StartedAt | EndedAt | BandKey | FrequencyHz | ModeKey
    | SubmodeKey | RstSentKey | RstReceived | Grid | NameKey | QthKey | NotesKey | MySigKey | MySigInfoKey
    | ContactedSig | ContactedSigInfo | Source | ImportMetadata

  function KeyName(k: Key): string {
    match k
    case ContactedCallsign => "contacted_callsign"
    case StationKey => "station_callsign"
    case OperatorKey => "operator_callsign"
    case StartedAt => "started_at"
    case EndedAt => "ended_at"
    case BandKey => "band"
    case FrequencyHz => "frequency_hz"
    case ModeKey => "mode"
    case SubmodeKey => "submode"
    case RstSentKey => "rst_sent"
    case RstReceived => "rst_received"
    case Grid => "grid"
    case NameKey => "name"
    case QthKey => "qth"
    case NotesKey => "notes"
    case MySigKey => "my_sig"
    case MySigInfoKey => "my_sig_info"
    case ContactedSig => "contacted_sig"
    case ContactedSigInfo => "contacted_sig_info"
    case Source => "source"
    case ImportMetadata => "import_metadata"
  }

  // ----- names tell tags and keys apart -----

  function Fingerprint(s: string): (nat, char, char)
    requires s != ""
  {
    (|s|, s[0], s[|s| - 1])
  }

  function TagFingerprint(t: Tag): (nat, char, char) {
    match t
    case Call => (4, 'C', 'L')
    case StationCallsign => (16, 'S', 'N')
    case Operator => (8, 'O', 'R')
    case QsoDate => (8, 'Q', 'E')
    case TimeOn => (7, 'T', 'N')
    case TimeOff => (8, 'T', 'F')
    case Band => (4, 'B', 'D')
    case Freq => (4, 'F', 'Q')
    case Mode => (4, 'M', 'E')
    case Submode => (7, 'S', 'E')
    case RstSent => (8, 'R', 'T')
    case RstRcvd => (8, 'R', 'D')
    case GridSquare => (10, 'G', 'E')
    case Name => (4, 'N', 'E')
    case Qth => (3, 'Q', 'H')
    case Comment => (7, 'C', 'T')
    case Notes => (5, 'N', 'S')
    case MySig => (6, 'M', 'G')
    case MySigInfo => (11, 'M', 'O')
    case Sig => (3, 'S', 'G')
    case SigInfo => (8, 'S', 'O')
    case AdifVer => (8, 'A', 'R')
  }

  function KeyFingerprint(k: Key): (nat, char, char) {
    match k
    case ContactedCallsign => (18, 'c', 'n')
    case StationKey => (16, 's', 'n')
    case OperatorKey => (17, 'o', 'n')
    case StartedAt => (10, 's', 't')
    case EndedAt => (8, 'e', 't')
    case BandKey => (4, 'b', 'd')
    case FrequencyHz => (12, 'f', 'z')
    case ModeKey => (4, 'm', 'e')
    case SubmodeKey => (7, 's', 'e')
    case RstSentKey => (8, 'r', 't')
    case RstReceived => (12, 'r', 'd')
    case Grid => (4, 'g', 'd')
    case NameKey => (4, 'n', 'e')
    case QthKey => (3, 'q', 'h')
    case NotesKey => (5, 'n', 's')
    case MySigKey => (6, 'm', 'g')
    case MySigInfoKey => (11, 'm', 'o')
    case ContactedSig => (13, 'c', 'g')
    case ContactedSigInfo => (18, 'c', 'o')
    case Source => (6, 's', 'e')
    case ImportMetadata => (15, 'i', 'a')
  }

  lemma TagHasFingerprint(t: Tag)
    ensures TagName(t) != "" && Fingerprint(TagName(t)) == TagFingerprint(t)
  {
  }

  lemma KeyHasFingerprint(k: Key)
    ensures KeyName(k) != "" && Fingerprint(KeyName(k)) == KeyFingerprint(k)
  {
  }

  lemma TagNamesDiffer(a: Tag, b: Tag)
    requires TagName(a) == TagName(b)
    ensures a == b
  {
    TagHasFingerprint(a);
    TagHasFingerprint(b);
    hide TagName, Fingerprint;
  }

  lemma KeyNamesDiffer(a: Key, b: Key)
    requires KeyName(a) == KeyName(b)
    ensures a == b
  {
    KeyHasFingerprint(a);
    KeyHasFingerprint(b);
    hide KeyName, Fingerprint;
  }
}
