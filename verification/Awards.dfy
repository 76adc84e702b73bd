/** Award progress (crates/ham-core/src/awards.rs:72-77, 127-176 and 208-245): QSOs
    grouped by one field of their payload. */
module Awards {
  import opened Basics
  import opened Text
  import opened Projection
  import Json

  // ----- byte order of keys -----

  predicate Less(a: string, b: string) {
    if b == "" then false
    else if a == "" then true
    else a[0] < b[0] || (a[0] == b[0] && Less(a[1..], b[1..]))
  }

  lemma {:induction false} LessTotal(a: string, b: string)
    ensures Less(a, b) || Less(b, a) || a == b
    ensures !(Less(a, b) && Less(b, a)) && !Less(a, a)
  {
    if a != "" && b != "" {
      LessTotal(a[1..], b[1..]);
      assert a == [a[0]] + a[1..] && b == [b[0]] + b[1..];
    }
    if a != "" {
      LessTotal(a[1..], a[1..]);
    }
  }

  lemma {:induction false} LessTransitive(a: string, b: string, c: string)
    requires Less(a, b) && Less(b, c)
    ensures Less(a, c)
  {
    if a != "" && a[0] == b[0] == c[0] {
      LessTransitive(a[1..], b[1..], c[1..]);
    }
  }

  // ----- keys -----

  datatype Rule = Rule(field: string, confirmedOnly: bool)

  datatype Definition = Definition(awardId: string, name: string, rules: seq<Rule>, placeholder: bool)

  datatype Credit = Credit(key: string, displayName: string, qsoIds: seq<Uuid>, confirmed: bool)

  datatype Progress = Progress(
    awardId: string, name: string, creditCount: nat, confirmedCreditCount: nat, credits: seq<Credit>, missing: seq<string>)

  function ShowInt(n: int): string {
    if n < 0 then "-" + ShowNat(-n) else ShowNat(n)
  }

  /** scalar_key: a trimmed text, or the JSON text of a number or a truth value. */
  function ScalarKey(v: Json.Value): Option<string> {
    match v
    case Str(s) => if Trim(s) == "" then None else Some(Trim(s))
    case Number(n) => Some(ShowInt(n))
    case Float(text) => Some(text)
    case Bool(b) => Some(if b then "true" else "false")
    case _ => None
  }

  /** One QSO as the grouping sees it. */
  datatype Entry = Entry(key: string, displayName: string, id: Uuid, confirmed: bool)

  function DisplayValue(q: Qso, field: string, key: string): string {
    if field == "dxcc" && q.payload.GetStr("entity").Some? then q.payload.GetStr("entity").value else key
  }

  function Confirmed(q: Qso): bool {
    q.payload.Get("confirmed") == Some(Json.Bool(true))
  }

  /** The entry of a QSO that counts: not deleted, with a key, and confirmed if the
      rule asks for it. */
  function EntryOf(rule: Rule, q: Qso): Option<Entry> {
    var v := q.payload.Get(rule.field);
    if q.deleted || v.None? || ScalarKey(v.value).None? then None
    else
      var key := Upper(ScalarKey(v.value).value);
      if rule.confirmedOnly && !Confirmed(q) then None
      else Some(Entry(key, DisplayValue(q, rule.field, key), q.id, Confirmed(q)))
  }

  function Eligible(rule: Rule, qsos: seq<Qso>): seq<Entry> {
    if qsos == [] then []
    else
      var n := |qsos| - 1;
      match EntryOf(rule, qsos[n])
      case None => Eligible(rule, qsos[..n])
      case Some(e) => Eligible(rule, qsos[..n]) + [e]
  }

  // ----- grouping -----

  function Join(c: Credit, e: Entry): Credit {
    c.(qsoIds := c.qsoIds + [e.id], confirmed := c.confirmed || e.confirmed)
  }

  /** credits.entry(key).or_insert_with(…), then the two updates: the map is its list
      of values in key order. */
  function Upsert(credits: seq<Credit>, e: Entry): seq<Credit> {
    if credits == [] then [Credit(e.key, e.displayName, [e.id], e.confirmed)]
    else if e.key == credits[0].key then [Join(credits[0], e)] + credits[1..]
    else if Less(e.key, credits[0].key) then [Credit(e.key, e.displayName, [e.id], e.confirmed)] + credits
    else [credits[0]] + Upsert(credits[1..], e)
  }

  function Grouped(entries: seq<Entry>): seq<Credit> {
    if entries == [] then [] else Upsert(Grouped(entries[..|entries| - 1]), entries[|entries| - 1])
  }

  function CountConfirmed(credits: seq<Credit>): nat {
    if credits == [] then 0
    else CountConfirmed(credits[..|credits| - 1]) + if credits[|credits| - 1].confirmed then 1 else 0
  }

  function Missing(d: Definition): seq<string> {
    if d.placeholder then ["award-specific rule database", "confirmation integration"] else []
  }

  function ProgressOf(d: Definition, qsos: seq<Qso>): Progress {
    if d.rules == [] then Progress(d.awardId, d.name, 0, 0, [], [])
    else
      var credits := Grouped(Eligible(d.rules[0], qsos));
      Progress(d.awardId, d.name, |credits|, CountConfirmed(credits), credits, Missing(d))
  }

  /** compute_award_progress: one pass over the QSOs, updating the credits. */
  method ComputeAwardProgress(d: Definition, qsos: seq<Qso>) returns (p: Progress)
    ensures p == ProgressOf(d, qsos)
  {
    hide Upsert, ScalarKey, DisplayValue, Upper;
    if d.rules == [] {
      return Progress(d.awardId, d.name, 0, 0, [], []);
    }
    var rule := d.rules[0];
    var credits: seq<Credit> := [];
    assert qsos[..0] == [];
    for i := 0 to |qsos|
      invariant credits == Grouped(Eligible(rule, qsos[..i]))
    {
      assert qsos[..i + 1][..i] == qsos[..i];
      var q := qsos[i];
      var v := q.payload.Get(rule.field);
      if q.deleted || v.None? || ScalarKey(v.value).None? {
        continue;
      }
      var key := Upper(ScalarKey(v.value).value);
      var confirmed := q.payload.Get("confirmed") == Some(Json.Bool(true));
      if rule.confirmedOnly && !confirmed {
        continue;
      }
      var e := Entry(key, DisplayValue(q, rule.field, key), q.id, confirmed);
      GroupedSnoc(Eligible(rule, qsos[..i]), e);
      credits := Upsert(credits, e);
    }
    assert qsos[..|qsos|] == qsos;
    var confirmedCount := 0;
    assert credits[..0] == [];
    for i := 0 to |credits|
      invariant confirmedCount == CountConfirmed(credits[..i])
    {
      assert credits[..i + 1][..i] == credits[..i];
      if credits[i].confirmed {
        confirmedCount := confirmedCount + 1;
      }
    }
    assert credits[..|credits|] == credits;
    p := Progress(d.awardId, d.name, |credits|, confirmedCount, credits, Missing(d));
  }

  lemma GroupedSnoc(entries: seq<Entry>, e: Entry)
    ensures Grouped(entries + [e]) == Upsert(Grouped(entries), e)
  {
    assert (entries + [e])[..|entries|] == entries;
  }

  // ----- the specification: one credit for each key -----

  function Members(entries: seq<Entry>, key: string): seq<Entry> {
    if entries == [] then []
    else
      var n := |entries| - 1;
      Members(entries[..n], key) + if entries[n].key == key then [entries[n]] else []
  }

  function Ids(entries: seq<Entry>): seq<Uuid> {
    if entries == [] then [] else Ids(entries[..|entries| - 1]) + [entries[|entries| - 1].id]
  }

  predicate AnyConfirmed(entries: seq<Entry>) {
    exists i :: 0 <= i < |entries| && entries[i].confirmed
  }

  function CreditOf(members: seq<Entry>, key: string): Option<Credit> {
    if members == [] then None else Some(Credit(key, members[0].displayName, Ids(members), AnyConfirmed(members)))
  }

  function CreditFor(credits: seq<Credit>, key: string): Option<Credit> {
    if credits == [] then None else if credits[0].key == key then Some(credits[0]) else CreditFor(credits[1..], key)
  }

  ghost predicate InKeyOrder(credits: seq<Credit>) {
    forall i, j :: 0 <= i < j < |credits| ==> Less(credits[i].key, credits[j].key)
  }

  lemma {:induction false} UpsertKeys(credits: seq<Credit>, e: Entry, c: Credit)
    requires c in Upsert(credits, e)
    ensures c.key == e.key || exists d :: d in credits && d.key == c.key
  {
    hide Less;
    if credits != [] && c !in credits && e.key != credits[0].key && !Less(e.key, credits[0].key) {
      UpsertKeys(credits[1..], e, c);
      if c.key != e.key {
        var d :| d in credits[1..] && d.key == c.key;
        assert d in credits;
      }
    } else if credits != [] {
      assert credits[0] in credits;
      assert forall d :: d in credits[1..] ==> d in credits;
    }
  }

  lemma {:induction false} UpsertOrder(credits: seq<Credit>, e: Entry)
    requires InKeyOrder(credits)
    ensures InKeyOrder(Upsert(credits, e))
  {
    if credits != [] {
      var head, rest := credits[0], credits[1..];
      LessTotal(e.key, head.key);
      if e.key != head.key && Less(e.key, head.key) {
        forall j | 0 < j < |credits| ensures Less(e.key, credits[j].key) {
          LessTransitive(e.key, head.key, credits[j].key);
        }
      } else if e.key != head.key {
        UpsertOrder(rest, e);
        forall c | c in Upsert(rest, e) ensures Less(head.key, c.key) {
          UpsertKeys(rest, e, c);
          if c.key != e.key {
            var d :| d in rest && d.key == c.key;
            var j :| 0 <= j < |rest| && rest[j] == d;
            assert credits[j + 1] == d;
          }
        }
      }
    }
  }

  lemma {:induction false} AbsentBelow(credits: seq<Credit>, key: string)
    requires InKeyOrder(credits) && forall i :: 0 <= i < |credits| ==> Less(key, credits[i].key)
    ensures CreditFor(credits, key) == None
  {
    if credits != [] {
      LessTotal(key, credits[0].key);
      AbsentBelow(credits[1..], key);
    }
  }

  lemma {:induction false} UpsertFor(credits: seq<Credit>, e: Entry, key: string)
    requires InKeyOrder(credits)
    ensures CreditFor(Upsert(credits, e), key) ==
      if key != e.key then CreditFor(credits, key)
      else if CreditFor(credits, key).None? then Some(Credit(e.key, e.displayName, [e.id], e.confirmed))
      else Some(Join(CreditFor(credits, key).value, e))
  {
    hide Less;
    if credits != [] && e.key != credits[0].key {
      if Less(e.key, credits[0].key) {
        forall i | 0 <= i < |credits| ensures Less(e.key, credits[i].key) {
          if i > 0 {
            LessTransitive(e.key, credits[0].key, credits[i].key);
          }
        }
        AbsentBelow(credits, e.key);
        assert ([Credit(e.key, e.displayName, [e.id], e.confirmed)] + credits)[1..] == credits;
      } else {
        UpsertFor(credits[1..], e, key);
      }
    }
  }

  /** The credits are in strictly increasing key order. */
  lemma {:induction false} GroupedInOrder(entries: seq<Entry>)
    ensures InKeyOrder(Grouped(entries))
  {
    hide Upsert;
    if entries != [] {
      GroupedInOrder(entries[..|entries| - 1]);
      UpsertOrder(Grouped(entries[..|entries| - 1]), entries[|entries| - 1]);
    }
  }

  /** Each key's credit lists exactly the entries with that key, in their order, and
      is confirmed exactly when one of them is; a key without entries has none. */
  lemma {:induction false} GroupedFor(entries: seq<Entry>, key: string)
    ensures CreditFor(Grouped(entries), key) == CreditOf(Members(entries, key), key)
  {
    hide Upsert, CreditFor, Less;
    if entries == [] {
      assert CreditFor([], key) == None by { NoCredits(key); }
    } else {
      var n := |entries| - 1;
      var e := entries[n];
      GroupedFor(entries[..n], key);
      GroupedInOrder(entries[..n]);
      UpsertFor(Grouped(entries[..n]), e, key);
      if e.key == key {
        MembersGrow(Members(entries[..n], key), e, key);
      } else {
        assert Members(entries[..n], key) + [] == Members(entries[..n], key);
      }
    }
  }

  lemma NoCredits(key: string)
    ensures CreditFor([], key) == None
  {
  }

  lemma MembersGrow(members: seq<Entry>, e: Entry, key: string)
    requires e.key == key
    ensures CreditOf(members + [e], key) ==
      if members == [] then Some(Credit(key, e.displayName, [e.id], e.confirmed))
      else Some(Join(CreditOf(members, key).value, e))
  {
    var longer := members + [e];
    assert longer[..|members|] == members && longer[|members|] == e;
    assert longer[0] == if members == [] then e else members[0];
    if AnyConfirmed(members) {
      var i :| 0 <= i < |members| && members[i].confirmed;
      assert longer[i].confirmed;
    }
    if AnyConfirmed(longer) && !e.confirmed {
      var i :| 0 <= i < |longer| && longer[i].confirmed;
      assert members[i].confirmed;
    }
    assert AnyConfirmed(longer) <==> AnyConfirmed(members) || e.confirmed;
    assert Ids(longer) == Ids(members) + [e.id];
    if members == [] {
      assert Ids(members) == [] && [] + [e.id] == [e.id] && !AnyConfirmed(members);
    }
  }

  // ----- counts -----

  /** The lists of QSO ids, one after the other. */
  function AllIds(credits: seq<Credit>): seq<Uuid> {
    if credits == [] then [] else credits[0].qsoIds + AllIds(credits[1..])
  }

  lemma {:induction false} UpsertAdds(credits: seq<Credit>, e: Entry)
    ensures multiset(AllIds(Upsert(credits, e))) == multiset(AllIds(credits)) + multiset{e.id}
  {
    hide Less;
    if credits != [] && e.key != credits[0].key && !Less(e.key, credits[0].key) {
      UpsertAdds(credits[1..], e);
    } else if credits != [] && e.key != credits[0].key {
      assert ([Credit(e.key, e.displayName, [e.id], e.confirmed)] + credits)[1..] == credits;
    }
  }

  /** The lists of all credits together hold the ids of the eligible QSOs, each as
      often as it occurs among them. */
  lemma {:induction false} EveryEntryOnce(entries: seq<Entry>)
    ensures multiset(AllIds(Grouped(entries))) == multiset(Ids(entries))
  {
    hide Upsert;
    if entries != [] {
      EveryEntryOnce(entries[..|entries| - 1]);
      UpsertAdds(Grouped(entries[..|entries| - 1]), entries[|entries| - 1]);
    }
  }

  ghost function Keys(entries: seq<Entry>): set<string> {
    set e | e in entries :: e.key
  }

  ghost function ConfirmedKeys(entries: seq<Entry>): set<string> {
    set e | e in entries && e.confirmed :: e.key
  }

  ghost function CreditKeys(credits: seq<Credit>): set<string> {
    set c | c in credits :: c.key
  }

  ghost function ConfirmedCreditKeys(credits: seq<Credit>): set<string> {
    set c | c in credits && c.confirmed :: c.key
  }

  lemma {:induction false} MembersHas(entries: seq<Entry>, key: string, e: Entry)
    ensures e in Members(entries, key) <==> e in entries && e.key == key
  {
    if entries != [] {
      var n := |entries| - 1;
      MembersHas(entries[..n], key, e);
      assert e in entries <==> e in entries[..n] || e == entries[n];
    }
  }

  lemma {:induction false} CreditForHas(credits: seq<Credit>, key: string)
    ensures CreditFor(credits, key).Some? ==> CreditFor(credits, key).value in credits && CreditFor(credits, key).value.key == key
    ensures CreditFor(credits, key).None? ==> forall c :: c in credits ==> c.key != key
  {
    if credits != [] && credits[0].key != key {
      CreditForHas(credits[1..], key);
      assert forall c :: c in credits <==> c == credits[0] || c in credits[1..];
    }
  }

  lemma OnlyCredit(credits: seq<Credit>, c: Credit)
    requires InKeyOrder(credits) && c in credits
    ensures CreditFor(credits, c.key) == Some(c)
  {
    CreditForHas(credits, c.key);
    var d := CreditFor(credits, c.key).value;
    var i :| 0 <= i < |credits| && credits[i] == c;
    var j :| 0 <= j < |credits| && credits[j] == d;
    LessTotal(c.key, c.key);
  }

  /** Keys with a credit are the keys of the entries, and keys with a confirmed
      credit those of the confirmed entries. */
  lemma GroupedKeys(entries: seq<Entry>)
    ensures CreditKeys(Grouped(entries)) == Keys(entries)
    ensures ConfirmedCreditKeys(Grouped(entries)) == ConfirmedKeys(entries)
  {
    hide Grouped, Members, CreditFor, InKeyOrder;
    var credits := Grouped(entries);
    GroupedInOrder(entries);
    forall key ensures key in CreditKeys(credits) <==> key in Keys(entries) {
      KeyGrouped(entries, key);
    }
    forall key ensures key in ConfirmedCreditKeys(credits) <==> key in ConfirmedKeys(entries) {
      KeyGrouped(entries, key);
    }
  }

  lemma KeyGrouped(entries: seq<Entry>, key: string)
    ensures key in CreditKeys(Grouped(entries)) <==> key in Keys(entries)
    ensures key in ConfirmedCreditKeys(Grouped(entries)) <==> key in ConfirmedKeys(entries)
  {
    hide Grouped, CreditFor, InKeyOrder;
    var credits := Grouped(entries);
    var members := Members(entries, key);
    GroupedInOrder(entries);
    GroupedFor(entries, key);
    CreditForHas(credits, key);
    forall e ensures e in members <==> e in entries && e.key == key {
      MembersHas(entries, key, e);
    }
    hide Members;
    forall c | c in credits && c.key == key ensures CreditFor(credits, key) == Some(c) {
      OnlyCredit(credits, c);
    }
    assert key in Keys(entries) <==> members != [] by {
      if members != [] {
        assert members[0] in members;
      }
    }
    if AnyConfirmed(members) {
      var i :| 0 <= i < |members| && members[i].confirmed;
      assert members[i] in members;
    }
    if key in ConfirmedKeys(entries) {
      var e :| e in entries && e.confirmed && e.key == key;
      assert e in members;
      var i :| 0 <= i < |members| && members[i] == e;
      assert AnyConfirmed(members);
    }
  }

  lemma LastKeyNew(credits: seq<Credit>)
    requires InKeyOrder(credits) && credits != []
    ensures forall c :: c in credits[..|credits| - 1] ==> c.key != credits[|credits| - 1].key
    ensures forall c :: c in credits <==> c in credits[..|credits| - 1] || c == credits[|credits| - 1]
  {
    var n := |credits| - 1;
    forall c | c in credits[..n] ensures c.key != credits[n].key {
      LessTotal(c.key, credits[n].key);
    }
  }

  lemma {:induction false} CreditsCounted(credits: seq<Credit>)
    requires InKeyOrder(credits)
    ensures |credits| == |CreditKeys(credits)|
  {
    if credits != [] {
      var n := |credits| - 1;
      CreditsCounted(credits[..n]);
      LastKeyNew(credits);
      hide InKeyOrder;
      assert CreditKeys(credits) == CreditKeys(credits[..n]) + {credits[n].key};
    }
  }

  lemma {:induction false} ConfirmedCounted(credits: seq<Credit>)
    requires InKeyOrder(credits)
    ensures CountConfirmed(credits) == |ConfirmedCreditKeys(credits)|
  {
    if credits != [] {
      var n := |credits| - 1;
      ConfirmedCounted(credits[..n]);
      LastKeyNew(credits);
      hide InKeyOrder;
      assert ConfirmedCreditKeys(credits) == ConfirmedCreditKeys(credits[..n]) + if credits[n].confirmed then {credits[n].key} else {};
    }
  }

  lemma SubsetCount(a: set<string>, b: set<string>)
    requires a <= b
    ensures |a| <= |b|
  {
    assert b == a + (b - a);
    assert |a + (b - a)| == |a| + |b - a|;
  }

  lemma {:induction false} EligibleHas(rule: Rule, qsos: seq<Qso>, e: Entry)
    ensures e in Eligible(rule, qsos) <==> exists q :: q in qsos && EntryOf(rule, q) == Some(e)
  {
    hide EntryOf;
    if qsos != [] {
      var n := |qsos| - 1;
      EligibleHas(rule, qsos[..n], e);
      assert forall q :: q in qsos <==> q in qsos[..n] || q == qsos[n];
    }
  }

  /** The two counts are the numbers of distinct keys, and of distinct keys with a
      confirmed QSO, among the eligible QSOs. */
  lemma CountsAreKeys(d: Definition, qsos: seq<Qso>)
    requires d.rules != []
    ensures var entries := Eligible(d.rules[0], qsos); var p := ProgressOf(d, qsos);
      && p.creditCount == |Keys(entries)| && p.confirmedCreditCount == |ConfirmedKeys(entries)|
      && p.confirmedCreditCount <= p.creditCount <= |entries|
  {
    hide Grouped, Eligible, Keys, ConfirmedKeys, CreditKeys, ConfirmedCreditKeys, InKeyOrder;
    var entries := Eligible(d.rules[0], qsos);
    GroupedInOrder(entries);
    GroupedKeys(entries);
    CreditsCounted(Grouped(entries));
    ConfirmedCounted(Grouped(entries));
    ConfirmedAreKeys(entries);
    SubsetCount(ConfirmedKeys(entries), Keys(entries));
    KeysAtMost(entries);
  }

  lemma ConfirmedAreKeys(entries: seq<Entry>)
    ensures ConfirmedKeys(entries) <= Keys(entries)
  {
  }

  lemma {:induction false} KeysAtMost(entries: seq<Entry>)
    ensures |Keys(entries)| <= |entries|
  {
    if entries == [] {
      assert Keys(entries) == {};
    } else {
      var n := |entries| - 1;
      KeysAtMost(entries[..n]);
      assert forall e :: e in entries <==> e in entries[..n] || e == entries[n];
      assert Keys(entries) == Keys(entries[..n]) + {entries[n].key};
    }
  }

  /** Adding QSOs, in any order and any place, never lowers a count; so reordering
      them changes neither. */
  lemma CountsGrow(d: Definition, qsos: seq<Qso>, more: seq<Qso>)
    requires forall q :: q in qsos ==> q in more
    ensures ProgressOf(d, qsos).creditCount <= ProgressOf(d, more).creditCount
    ensures ProgressOf(d, qsos).confirmedCreditCount <= ProgressOf(d, more).confirmedCreditCount
  {
    if d.rules != [] {
      hide Grouped, Eligible, ProgressOf, EntryOf;
      CountsAreKeys(d, qsos);
      CountsAreKeys(d, more);
      var a, b := Eligible(d.rules[0], qsos), Eligible(d.rules[0], more);
      forall e | e in a ensures e in b {
        EligibleHas(d.rules[0], qsos, e);
        EligibleHas(d.rules[0], more, e);
      }
      SubsetCount(Keys(a), Keys(b));
      SubsetCount(ConfirmedKeys(a), ConfirmedKeys(b));
    }
  }

  lemma CountsPermute(d: Definition, qsos: seq<Qso>, reordered: seq<Qso>)
    requires multiset(qsos) == multiset(reordered)
    ensures ProgressOf(d, qsos).creditCount == ProgressOf(d, reordered).creditCount
    ensures ProgressOf(d, qsos).confirmedCreditCount == ProgressOf(d, reordered).confirmedCreditCount
  {
    forall q ensures q in qsos <==> q in reordered {
      assert q in qsos <==> q in multiset(qsos);
      assert q in reordered <==> q in multiset(reordered);
    }
    CountsGrow(d, qsos, reordered);
    CountsGrow(d, reordered, qsos);
  }

  // ----- from the QSOs themselves -----

  /** The QSOs that are not deleted. */
  function Live(qsos: seq<Qso>): seq<Qso> {
    if qsos == [] then []
    else
      var n := |qsos| - 1;
      if qsos[n].deleted then Live(qsos[..n]) else Live(qsos[..n]) + [qsos[n]]
  }

  lemma {:induction false} LiveConcat(a: seq<Qso>, b: seq<Qso>)
    ensures Live(a + b) == Live(a) + Live(b)
  {
    if b == [] {
      assert a + b == a;
    } else {
      var n := |b| - 1;
      assert (a + b)[..|a + b| - 1] == a + b[..n] && (a + b)[|a + b| - 1] == b[n];
      LiveConcat(a, b[..n]);
    }
  }

  lemma {:induction false} EligibleLive(rule: Rule, qsos: seq<Qso>)
    ensures Eligible(rule, Live(qsos)) == Eligible(rule, qsos)
  {
    hide ScalarKey, Upper, DisplayValue;
    if qsos != [] {
      var n := |qsos| - 1;
      EligibleLive(rule, qsos[..n]);
      if !qsos[n].deleted {
        assert Live(qsos)[..|Live(qsos)| - 1] == Live(qsos[..n]);
      }
    }
  }

  /** Deleted QSOs do not count. */
  lemma DeletedDoNotCount(d: Definition, qsos: seq<Qso>)
    ensures ProgressOf(d, qsos) == ProgressOf(d, Live(qsos))
  {
    hide Eligible, Grouped, CountConfirmed, Missing;
    if d.rules != [] {
      EligibleLive(d.rules[0], qsos);
    }
  }

  /** Deleting a QSO is leaving it out. */
  lemma DeletingLeavesOut(d: Definition, qsos: seq<Qso>, i: nat)
    requires i < |qsos|
    ensures ProgressOf(d, qsos[i := qsos[i].(deleted := true)]) == ProgressOf(d, qsos[..i] + qsos[i + 1..])
  {
    var gone := qsos[i].(deleted := true);
    var a, b := qsos[..i], qsos[i + 1..];
    assert qsos[i := gone] == (a + [gone]) + b && [gone][..0] == [];
    LiveConcat(a + [gone], b);
    LiveConcat(a, [gone]);
    LiveConcat(a, b);
    assert Live([gone]) == [];
    DeletedDoNotCount(d, qsos[i := gone]);
    DeletedDoNotCount(d, a + b);
    hide ProgressOf, Live;
  }

  /** The text of a value that can be a key: a text that is not blank, without the
      white space around it, a number or a truth value. */
  predicate KeyedBy(v: Json.Value, key: string) {
    match v
    case Str(s) => !Blank(s) && key == Upper(Trim(s))
    case Number(n) => key == Upper(if n < 0 then "-" + ShowNat(-n) else ShowNat(n))
    case Float(text) => key == Upper(text)
    case Bool(b) => key == if b then "TRUE" else "FALSE"
    case _ => false
  }

  /** A live QSO whose field is the key, confirmed if the rule asks for it. */
  predicate CountsFor(rule: Rule, q: Qso, key: string) {
    && !q.deleted
    && q.payload.Get(rule.field).Some? && KeyedBy(q.payload.Get(rule.field).value, key)
    && (rule.confirmedOnly ==> q.payload.Get("confirmed") == Some(Json.Bool(true)))
  }

  function NameFor(rule: Rule, q: Qso, key: string): string {
    if rule.field == "dxcc" && q.payload.GetStr("entity").Some? then q.payload.GetStr("entity").value else key
  }

  lemma TruthInCapitals()
    ensures Upper("true") == "TRUE" && Upper("false") == "FALSE"
  {
  }

  lemma EntryExactly(rule: Rule, q: Qso, key: string)
    ensures (EntryOf(rule, q).Some? && EntryOf(rule, q).value.key == key) <==> CountsFor(rule, q, key)
    ensures CountsFor(rule, q, key) ==>
      EntryOf(rule, q) == Some(Entry(key, NameFor(rule, q, key), q.id, q.payload.Get("confirmed") == Some(Json.Bool(true))))
  {
    TruthInCapitals();
    hide Upper, Trim;
  }

  /** The ids of the QSOs that count for a key, in their order. */
  function IdsFor(rule: Rule, qsos: seq<Qso>, key: string): seq<Uuid> {
    if qsos == [] then []
    else
      var n := |qsos| - 1;
      if CountsFor(rule, qsos[n], key) then IdsFor(rule, qsos[..n], key) + [qsos[n].id] else IdsFor(rule, qsos[..n], key)
  }

  lemma {:induction false} MembersFor(rule: Rule, qsos: seq<Qso>, key: string)
    ensures Ids(Members(Eligible(rule, qsos), key)) == IdsFor(rule, qsos, key)
    ensures AnyConfirmed(Members(Eligible(rule, qsos), key)) <==>
      exists q :: q in qsos && CountsFor(rule, q, key) && q.payload.Get("confirmed") == Some(Json.Bool(true))
  {
    hide EntryOf, CountsFor;
    if qsos != [] {
      var n := |qsos| - 1;
      MembersFor(rule, qsos[..n], key);
      EntryExactly(rule, qsos[n], key);
      assert forall q :: q in qsos <==> q in qsos[..n] || q == qsos[n];
      var before := Eligible(rule, qsos[..n]);
      if EntryOf(rule, qsos[n]).Some? {
        var e := EntryOf(rule, qsos[n]).value;
        MembersSnoc(before, e, key);
      }
    }
  }

  lemma MembersSnoc(entries: seq<Entry>, e: Entry, key: string)
    ensures Members(entries + [e], key) == Members(entries, key) + if e.key == key then [e] else []
    ensures Ids(Members(entries + [e], key)) == Ids(Members(entries, key)) + if e.key == key then [e.id] else []
    ensures AnyConfirmed(Members(entries + [e], key)) <==> AnyConfirmed(Members(entries, key)) || (e.key == key && e.confirmed)
  {
    assert (entries + [e])[..|entries|] == entries;
    var members := Members(entries, key);
    if e.key == key {
      MembersGrow(members, e, key);
      if members == [] {
        assert Ids(members + [e]) == Ids([]) + [e.id];
      }
    } else {
      assert members + [] == members && Ids(members) + [] == Ids(members);
    }
  }

  /** The credits, from the QSOs: a key has one exactly when some QSO counts for it; it
      lists the ids of exactly the QSOs that do, in order, and is confirmed exactly
      when one of them is. */
  lemma CreditsExactly(d: Definition, qsos: seq<Qso>, key: string)
    requires d.rules != []
    ensures var rule := d.rules[0]; var credits := ProgressOf(d, qsos).credits;
      && ((exists c :: c in credits && c.key == key) <==> exists q :: q in qsos && CountsFor(rule, q, key))
      && forall c :: c in credits && c.key == key ==>
           && c.qsoIds == IdsFor(rule, qsos, key)
           && (c.confirmed <==> exists q :: q in qsos && CountsFor(rule, q, key) && q.payload.Get("confirmed") == Some(Json.Bool(true)))
  {
    var rule := d.rules[0];
    var entries := Eligible(rule, qsos);
    var credits := Grouped(entries);
    GroupedInOrder(entries);
    GroupedFor(entries, key);
    MembersFor(rule, qsos, key);
    CreditForHas(credits, key);
    IdsForSome(rule, qsos, key);
    NoIdsNoMembers(Members(entries, key));
    hide Eligible, Grouped, CountsFor, IdsFor, Members, Ids, AnyConfirmed, CreditFor, InKeyOrder, CountConfirmed, Missing;
    forall c | c in credits && c.key == key ensures CreditFor(credits, key) == Some(c) {
      OnlyCredit(credits, c);
    }
  }

  lemma {:induction false} IdsForSome(rule: Rule, qsos: seq<Qso>, key: string)
    ensures IdsFor(rule, qsos, key) == [] <==> !exists q :: q in qsos && CountsFor(rule, q, key)
  {
    hide CountsFor;
    if qsos != [] {
      var n := |qsos| - 1;
      IdsForSome(rule, qsos[..n], key);
      assert forall q :: q in qsos <==> q in qsos[..n] || q == qsos[n];
    }
  }

  lemma NoIdsNoMembers(members: seq<Entry>)
    ensures Ids(members) == [] <==> members == []
  {
  }

  /** A credit carries the name given by the first QSO that counts for it. */
  lemma CreditNamed(d: Definition, qsos: seq<Qso>, c: Credit, i: nat)
    requires d.rules != [] && c in ProgressOf(d, qsos).credits
    requires i < |qsos| && CountsFor(d.rules[0], qsos[i], c.key)
    requires forall j :: 0 <= j < i ==> !CountsFor(d.rules[0], qsos[j], c.key)
    ensures c.displayName == NameFor(d.rules[0], qsos[i], c.key)
  {
    var rule := d.rules[0];
    var entries := Eligible(rule, qsos);
    GroupedInOrder(entries);
    GroupedFor(entries, c.key);
    OnlyCredit(Grouped(entries), c);
    FirstMember(rule, qsos, c.key, i);
    hide Eligible, Grouped, CountsFor, Members, Ids, AnyConfirmed, CreditFor, InKeyOrder, CountConfirmed, Missing, NameFor;
  }

  lemma {:induction false} FirstMember(rule: Rule, qsos: seq<Qso>, key: string, i: nat)
    requires i < |qsos| && CountsFor(rule, qsos[i], key) && forall j :: 0 <= j < i ==> !CountsFor(rule, qsos[j], key)
    ensures var members := Members(Eligible(rule, qsos), key);
      members != [] && members[0].displayName == NameFor(rule, qsos[i], key)
  {
    hide EntryOf, CountsFor, NameFor, Ids, AnyConfirmed;
    var n := |qsos| - 1;
    EntryExactly(rule, qsos[n], key);
    var before := Eligible(rule, qsos[..n]);
    if EntryOf(rule, qsos[n]).Some? {
      MembersSnoc(before, EntryOf(rule, qsos[n]).value, key);
    }
    if i < n {
      FirstMember(rule, qsos[..n], key, i);
    } else {
      MembersFor(rule, qsos[..n], key);
      IdsForSome(rule, qsos[..n], key);
      NoIdsNoMembers(Members(before, key));
      assert forall q :: q in qsos[..n] ==> !CountsFor(rule, q, key);
    }
  }

  /** rebuild_from_qsos: one progress for each definition, in order. */
  method RebuildFromQsos(definitions: seq<Definition>, qsos: seq<Qso>) returns (all: seq<Progress>)
    ensures |all| == |definitions| && forall i :: 0 <= i < |all| ==> all[i] == ProgressOf(definitions[i], qsos)
  {
    hide ProgressOf;
    all := [];
    for i := 0 to |definitions|
      invariant |all| == i && forall k :: 0 <= k < i ==> all[k] == ProgressOf(definitions[k], qsos)
    {
      var p := ComputeAwardProgress(definitions[i], qsos);
      all := all + [p];
    }
  }

  /** A progress is that of its definition, counts its credits, and says that something
      is missing exactly for a placeholder with a rule. */
  lemma ProgressFor(d: Definition, qsos: seq<Qso>)
    ensures var p := ProgressOf(d, qsos);
      && p.awardId == d.awardId && p.name == d.name && p.creditCount == |p.credits|
      && p.confirmedCreditCount == |set i | 0 <= i < |p.credits| && p.credits[i].confirmed|
      && (p.missing == [] <==> d.rules == [] || !d.placeholder)
  {
    hide Grouped, Eligible;
    var credits := ProgressOf(d, qsos).credits;
    ConfirmedPlaces(credits);
    assert d.rules == [] ==> CountConfirmed(credits) == 0;
  }

  lemma {:induction false} ConfirmedPlaces(credits: seq<Credit>)
    ensures CountConfirmed(credits) == |set i | 0 <= i < |credits| && credits[i].confirmed|
  {
    var places := set i | 0 <= i < |credits| && credits[i].confirmed;
    if credits != [] {
      var n := |credits| - 1;
      ConfirmedPlaces(credits[..n]);
      var earlier := set i | 0 <= i < |credits[..n]| && credits[..n][i].confirmed;
      assert places == if credits[n].confirmed then earlier + {n} else earlier;
    } else {
      assert places == {};
    }
  }
}
