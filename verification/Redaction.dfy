/** Redaction of runtime payloads (crates/ham-core/src/bus.rs:146-180). */
module Redaction {
  import opened Basics
  import opened Text
  import opened Json

  const NEEDLES: seq<string> := [
    "password", "passwd", "token", "secret", "api_key", "apikey", "authorization", "auth", "private_key"]

  predicate SecretLike(key: string) {
    exists i :: 0 <= i < |NEEDLES| && Mentions(Lower(key), NEEDLES[i])
  }

  const MARKER := Str("[REDACTED]")

  /** redact_payload. */
  function Redact(v: Value): Value {
    match v
    case Object(fields) => Object(map key | key in fields :: if SecretLike(key) then MARKER else Redact(fields[key]))
    case Array(items) => Array(seq(|items|, i requires 0 <= i < |items| => Redact(items[i])))
    case _ => v
  }

  /** Nothing but the marker stands under a secret-like key, at any depth. */
  predicate Clean(v: Value) {
    match v
    case Object(fields) => forall key :: key in fields ==> if SecretLike(key) then fields[key] == MARKER else Clean(fields[key])
    case Array(items) => forall i :: 0 <= i < |items| ==> Clean(items[i])
    case _ => true
  }

  /** No secret-like key at any depth. */
  predicate NoSecrets(v: Value) {
    match v
    case Object(fields) => forall key :: key in fields ==> !SecretLike(key) && NoSecrets(fields[key])
    case Array(items) => forall i :: 0 <= i < |items| ==> NoSecrets(items[i])
    case _ => true
  }

  lemma {:induction false} RedactedIsClean(v: Value)
    ensures Clean(Redact(v))
  {
    hide SecretLike;
    match v {
      case Object(fields) =>
        forall key | key in fields && !SecretLike(key) ensures Clean(Redact(fields[key])) {
          RedactedIsClean(fields[key]);
        }
      case Array(items) =>
        forall i | 0 <= i < |items| ensures Clean(Redact(items[i])) {
          RedactedIsClean(items[i]);
        }
      case _ =>
    }
  }

  /** Redaction changes exactly the values that are not clean. */
  lemma {:induction false} RedactFixes(v: Value)
    ensures Redact(v) == v <==> Clean(v)
  {
    hide SecretLike;
    match v {
      case Object(fields) =>
        forall key | key in fields && !SecretLike(key) ensures Redact(fields[key]) == fields[key] <==> Clean(fields[key]) {
          RedactFixes(fields[key]);
        }
        var after := Redact(v).fields;
        assert after.Keys == fields.Keys;
        if Clean(v) {
          assert after == fields;
        }
        if Redact(v) == v {
          forall key | key in fields ensures if SecretLike(key) then fields[key] == MARKER else Clean(fields[key]) {
            assert after[key] == fields[key];
          }
        }
      case Array(items) =>
        forall i | 0 <= i < |items| ensures Redact(items[i]) == items[i] <==> Clean(items[i]) {
          RedactFixes(items[i]);
        }
        var after := Redact(v).items;
        assert forall i :: 0 <= i < |items| ==> after[i] == Redact(items[i]);
        if Clean(v) {
          assert after == items;
        }
      case _ =>
    }
  }

  /** Redacting again changes nothing. */
  lemma {:induction false} RedactIdempotent(v: Value)
    ensures Redact(Redact(v)) == Redact(v)
  {
    RedactedIsClean(v);
    RedactFixes(Redact(v));
    hide Redact, Clean;
  }

  lemma {:induction false} NoSecretsIsClean(v: Value)
    requires NoSecrets(v)
    ensures Clean(v)
  {
    hide SecretLike;
    match v {
      case Object(fields) =>
        forall key | key in fields ensures Clean(fields[key]) {
          NoSecretsIsClean(fields[key]);
        }
      case Array(items) =>
        forall i | 0 <= i < |items| ensures Clean(items[i]) {
          NoSecretsIsClean(items[i]);
        }
      case _ =>
    }
  }

  /** A value without secret-like keys comes out as it went in. */
  lemma {:induction false} NoSecretsUnchanged(v: Value)
    requires NoSecrets(v)
    ensures Redact(v) == v
  {
    NoSecretsIsClean(v);
    RedactFixes(v);
    hide Redact, Clean, NoSecrets;
  }

  // ----- every place in a value -----

  datatype Step = Key(name: string) | Index(i: nat)

  /** The value at the end of a path, if the path exists. */
  function At(v: Value, path: seq<Step>): Option<Value>
    decreases |path|
  {
    if path == [] then Some(v)
    else
      match path[0]
      case Key(name) => if v.Object? && name in v.fields then At(v.fields[name], path[1..]) else None
      case Index(i) => if v.Array? && i < |v.items| then At(v.items[i], path[1..]) else None
  }

  /** How many steps lead up to and through the first secret-like key; 0 if none. */
  function FirstSecret(path: seq<Step>): (n: nat)
    ensures n <= |path|
  {
    if path == [] then 0
    else if path[0].Key? && SecretLike(path[0].name) then 1
    else if FirstSecret(path[1..]) == 0 then 0
    else 1 + FirstSecret(path[1..])
  }

  /** Place by place: every path without a secret-like key exists after redaction
      exactly when it did before, with the redacted value there; a path ending in its
      first secret-like key leads to the marker; and there is nothing below one. */
  lemma {:induction false} RedactedAt(v: Value, path: seq<Step>)
    ensures At(Redact(v), path) ==
      if FirstSecret(path) == 0 then (match At(v, path) case None => None case Some(x) => Some(Redact(x)))
      else if FirstSecret(path) == |path| && At(v, path).Some? then Some(MARKER)
      else None
    decreases |path|
  {
    hide SecretLike;
    if path != [] {
      match path[0] {
        case Key(name) =>
          if v.Object? && name in v.fields {
            if SecretLike(name) {
              UnderMarker(path[1..]);
              assert path[1..] == [] ==> |path| == 1;
            } else {
              RedactedAt(v.fields[name], path[1..]);
            }
          }
        case Index(i) =>
          if v.Array? && i < |v.items| {
            RedactedAt(v.items[i], path[1..]);
          }
      }
    }
  }

  lemma UnderMarker(path: seq<Step>)
    ensures At(MARKER, path) == if path == [] then Some(MARKER) else None
  {
  }

  // ----- which keys are secret-like -----

  /** A stretch of a key is a word, up to case. */
  predicate Has(key: string, word: string) {
    exists i, j :: 0 <= i <= j <= |key| && EqIgnoreCase(key[i..j], word)
  }

  lemma HasLower(key: string, word: string)
    requires Lower(word) == word
    ensures Mentions(Lower(key), word) <==> Has(key, word)
  {
    if i :| 0 <= i <= |Lower(key)| && MentionsAt(Lower(key), word, i) {
      assert Lower(key)[i..i + |word|] == Lower(key[i..i + |word|]);
      assert EqIgnoreCase(key[i..i + |word|], word);
    }
    if i, j :| 0 <= i <= j <= |key| && EqIgnoreCase(key[i..j], word) {
      assert |Lower(key[i..j])| == j - i;
      assert Lower(key)[i..j] == Lower(key[i..j]);
      assert MentionsAt(Lower(key), word, i);
    }
  }

  /** A key is secret-like exactly when it holds, in any case, one of these words; the
      longer spellings of "auth" and the rest follow from the shorter ones. */
  lemma SecretExactly(key: string)
    ensures SecretLike(key) <==>
      || Has(key, "password") || Has(key, "passwd") || Has(key, "token") || Has(key, "secret") || Has(key, "api_key")
      || Has(key, "apikey") || Has(key, "authorization") || Has(key, "auth") || Has(key, "private_key")
  {
    NeedlesLower();
    forall i | 0 <= i < |NEEDLES| ensures Mentions(Lower(key), NEEDLES[i]) <==> Has(key, NEEDLES[i]) {
      HasLower(key, NEEDLES[i]);
    }
    hide Mentions, Has, Lower;
    assert NEEDLES[0] == "password" && NEEDLES[1] == "passwd" && NEEDLES[2] == "token" && NEEDLES[3] == "secret";
    assert NEEDLES[4] == "api_key" && NEEDLES[5] == "apikey" && NEEDLES[6] == "authorization" && NEEDLES[7] == "auth";
    assert NEEDLES[8] == "private_key" && |NEEDLES| == 9;
  }

  lemma NeedlesLower()
    ensures forall i :: 0 <= i < |NEEDLES| ==> Lower(NEEDLES[i]) == NEEDLES[i]
  {
    assert Lower("password") == "password" && Lower("passwd") == "passwd" && Lower("token") == "token";
    assert Lower("secret") == "secret" && Lower("api_key") == "api_key" && Lower("apikey") == "apikey";
    assert Lower("authorization") == "authorization" && Lower("auth") == "auth" && Lower("private_key") == "private_key";
  }

  /** A key made longer at either end stays secret-like. */
  lemma LongerStaysSecret(before: string, key: string, after: string)
    requires SecretLike(key)
    ensures SecretLike(before + key + after)
  {
    var n :| 0 <= n < |NEEDLES| && Mentions(Lower(key), NEEDLES[n]);
    var i :| 0 <= i <= |Lower(key)| && MentionsAt(Lower(key), NEEDLES[n], i);
    var longer := before + key + after;
    assert Lower(longer)[|before|..|before| + |key|] == Lower(key);
    assert Lower(longer)[|before| + i..|before| + i + |NEEDLES[n]|] == Lower(key)[i..i + |NEEDLES[n]|];
    assert MentionsAt(Lower(longer), NEEDLES[n], |before| + i);
  }
}
