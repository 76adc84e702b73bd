/** The API contract check (scripts/check_api_contract.py:27-64): which changes of a
    schema it reports. */
module SchemaCheck {
  import opened Basics
  import opened Json

  // ----- what the check reads in one schema -----

  /** schema_type: an absent type and a null one are the same. */
  function TypeOf(v: Value): Value {
    if v.Get("type").Some? then v.Get("type").value else Null
  }

  /** The members of a list, as a set. */
  function ListOf(v: Option<Value>): set<Value> {
    match v
    case Some(Array(items)) => set i | 0 <= i < |items| :: items[i]
    case _ => {}
  }

  function Enum(v: Value): set<Value> {
    ListOf(v.Get("enum"))
  }

  function Required(v: Value): set<Value> {
    ListOf(v.Get("required"))
  }

  function Properties(v: Value): (m: map<string, Value>)
    ensures forall p :: p in m ==> m[p] < v
  {
    match v.Get("properties")
    case Some(Object(fields)) => fields
    case _ => map[]
  }

  predicate Nullable(v: Value, b: bool) {
    v.Get("nullable") == Some(Bool(b))
  }

  predicate HasNull(t: Value) {
    t.Array? && exists i :: 0 <= i < |t.items| && t.items[i] == Str("null")
  }

  // ----- compatibility -----

  /** What is compared at one node, properties aside. */
  predicate NodeOk(before: Value, after: Value) {
    && TypeOf(before) == TypeOf(after)
    && (Enum(before) != {} ==> Enum(before) <= Enum(after))
    && Required(after) <= Required(before)
    && !(Nullable(before, true) && Nullable(after, false))
  }

  /** Nothing a client relied on is gone, at any depth; a node that is not an object
      on either side is not looked at. */
  predicate Compatible(before: Value, after: Value)
    decreases before
  {
    before.Object? && after.Object? ==>
      && NodeOk(before, after)
      && forall p :: p in Properties(before) ==>
           p in Properties(after) && Compatible(Properties(before)[p], Properties(after)[p])
  }

  // ----- the errors reported -----

  datatype Finding =
    | ChangedType(at: string)
    | NarrowedEnum(at: string, removed: set<Value>)
    | NewlyRequired(at: string, added: set<Value>)
    | RemovedField(at: string)
    | NarrowedNullability(at: string)
    | RemovedNull(at: string)

  function When(condition: bool, f: Finding): seq<Finding> {
    if condition then [f] else []
  }

  function Dotted(name: string, property: string): string {
    name + "." + property
  }

  /** The errors about one node before and after its properties are looked at. */
  function HeadFindings(name: string, before: Value, after: Value): seq<Finding> {
    When(TypeOf(before) != TypeOf(after), ChangedType(name)) +
    When(Enum(before) != {} && !(Enum(before) <= Enum(after)), NarrowedEnum(name, Enum(before) - Enum(after))) +
    When(Required(after) - Required(before) != {}, NewlyRequired(name, Required(after) - Required(before)))
  }

  function TailFindings(name: string, before: Value, after: Value): seq<Finding> {
    When(Nullable(before, true) && Nullable(after, false), NarrowedNullability(name)) +
    When(HasNull(TypeOf(before)) && !HasNull(TypeOf(after)), RemovedNull(name))
  }

  ghost function Elements(s: seq<Finding>): set<Finding> {
    set f | f in s
  }

  /** Every error compare_schema adds. */
  ghost function Findings(name: string, before: Value, after: Value): set<Finding>
    decreases before, 2
  {
    if !before.Object? || !after.Object? then {}
    else
      Elements(HeadFindings(name, before, after)) + Elements(TailFindings(name, before, after)) +
      UnderProperties(name, before, after, Properties(before).Keys)
  }

  /** Those about some of the properties. */
  ghost function UnderProperties(name: string, before: Value, after: Value, some: set<string>): set<Finding>
    requires some <= Properties(before).Keys
    decreases before, 1
  {
    set p, f | p in some && f in PropertyFindings(name, before, after, p) :: f
  }

  ghost function PropertyFindings(name: string, before: Value, after: Value, p: string): set<Finding>
    requires p in Properties(before)
    decreases before, 0
  {
    if p !in Properties(after) then {RemovedField(Dotted(name, p))}
    else Findings(Dotted(name, p), Properties(before)[p], Properties(after)[p])
  }

  lemma NoElements(s: seq<Finding>)
    ensures Elements(s) == {} <==> s == []
  {
    if s != [] {
      assert s[0] in Elements(s);
    }
  }

  lemma WhenNothing(condition: bool, f: Finding)
    ensures When(condition, f) == [] <==> !condition
  {
  }

  lemma HeadIsClear(name: string, before: Value, after: Value)
    ensures HeadFindings(name, before, after) == [] <==>
      && TypeOf(before) == TypeOf(after)
      && (Enum(before) != {} ==> Enum(before) <= Enum(after))
      && Required(after) <= Required(before)
  {
    hide Enum, Required, TypeOf, When;
    WhenNothing(TypeOf(before) != TypeOf(after), ChangedType(name));
    WhenNothing(Enum(before) != {} && !(Enum(before) <= Enum(after)), NarrowedEnum(name, Enum(before) - Enum(after)));
    WhenNothing(Required(after) - Required(before) != {}, NewlyRequired(name, Required(after) - Required(before)));
    DifferenceEmpty(Required(after), Required(before));
  }

  lemma DifferenceEmpty(a: set<Value>, b: set<Value>)
    ensures a - b == {} <==> a <= b
  {
    if a - b == {} {
      forall x | x in a ensures x in b {
        assert x !in a - b;
      }
    }
  }

  lemma TailIsClear(name: string, before: Value, after: Value)
    ensures TailFindings(name, before, after) == [] <==>
      && !(Nullable(before, true) && Nullable(after, false))
      && (HasNull(TypeOf(before)) ==> HasNull(TypeOf(after)))
  {
    hide HasNull, TypeOf, Nullable, When;
    WhenNothing(Nullable(before, true) && Nullable(after, false), NarrowedNullability(name));
    WhenNothing(HasNull(TypeOf(before)) && !HasNull(TypeOf(after)), RemovedNull(name));
  }

  /** The test for a lost null never adds an error of its own: a type that lost it
      has changed. */
  lemma NodeFindings(name: string, before: Value, after: Value)
    ensures HeadFindings(name, before, after) == [] && TailFindings(name, before, after) == [] <==> NodeOk(before, after)
  {
    HeadIsClear(name, before, after);
    TailIsClear(name, before, after);
    hide HasNull, Enum, Required, TypeOf, Nullable, HeadFindings, TailFindings;
  }

  /** No error is added exactly when the change is compatible. */
  lemma {:induction false} NoFindingsIff(name: string, before: Value, after: Value)
    ensures Findings(name, before, after) == {} <==> Compatible(before, after)
    decreases before
  {
    hide NodeOk, HeadFindings, TailFindings, Properties, UnderProperties, Elements;
    if before.Object? && after.Object? {
      NodeFindings(name, before, after);
      NoElements(HeadFindings(name, before, after));
      NoElements(TailFindings(name, before, after));
      forall p | p in Properties(before)
        ensures PropertyFindings(name, before, after, p) == {} <==>
          p in Properties(after) && Compatible(Properties(before)[p], Properties(after)[p])
      {
        if p in Properties(after) {
          NoFindingsIff(Dotted(name, p), Properties(before)[p], Properties(after)[p]);
        }
      }
      EmptyUnion(name, before, after);
    }
  }

  lemma EmptyUnion(name: string, before: Value, after: Value)
    ensures UnderProperties(name, before, after, Properties(before).Keys) == {} <==>
      forall p :: p in Properties(before) ==> PropertyFindings(name, before, after, p) == {}
  {
    hide PropertyFindings, Properties;
    var all := UnderProperties(name, before, after, Properties(before).Keys);
    forall p | p in Properties(before) ensures PropertyFindings(name, before, after, p) <= all {
    }
  }

  lemma OneMoreProperty(name: string, before: Value, after: Value, some: set<string>, p: string)
    requires some <= Properties(before).Keys && p in Properties(before)
    ensures UnderProperties(name, before, after, some + {p}) ==
      UnderProperties(name, before, after, some) + PropertyFindings(name, before, after, p)
  {
    hide PropertyFindings, Properties;
  }

  /** compare_schema: appends to the shared list, property by property. */
  method CompareSchema(name: string, before: Value, after: Value, errors: seq<Finding>) returns (errors': seq<Finding>)
    ensures IsPrefix(errors, errors')
    ensures Elements(errors'[|errors|..]) == Findings(name, before, after)
    decreases before
  {
    hide HeadFindings, TailFindings, UnderProperties, Elements;
    errors' := errors;
    if !before.Object? || !after.Object? {
      NoElements(errors'[|errors|..]);
      return;
    }
    var head := HeadFindings(name, before, after);
    errors' := errors + head;
    assert errors'[|errors|..] == head;
    var left := Properties(before).Keys;
    ghost var seen: set<string> := {};
    NoProperties(name, before, after);
    while left != {}
      invariant left + seen == Properties(before).Keys
      invariant IsPrefix(errors, errors')
      invariant Elements(errors'[|errors|..]) == Elements(head) + UnderProperties(name, before, after, seen)
      decreases left
    {
      var p :| p in left;
      ghost var earlier := errors';
      if p !in Properties(after) {
        errors' := errors' + [RemovedField(Dotted(name, p))];
        OneElement(RemovedField(Dotted(name, p)));
        assert errors'[|earlier|..] == [RemovedField(Dotted(name, p))];
      } else {
        errors' := CompareSchema(Dotted(name, p), Properties(before)[p], Properties(after)[p], errors');
      }
      assert Elements(errors'[|earlier|..]) == PropertyFindings(name, before, after, p);
      ElementsOfTail(errors, earlier, errors');
      OneMoreProperty(name, before, after, seen, p);
      left := left - {p};
      seen := seen + {p};
    }
    var tail := TailFindings(name, before, after);
    assert (errors' + tail)[|errors'|..] == tail;
    ElementsOfTail(errors, errors', errors' + tail);
    errors' := errors' + tail;
    assert seen == Properties(before).Keys;
  }

  lemma NoProperties(name: string, before: Value, after: Value)
    ensures UnderProperties(name, before, after, {}) == {}
  {
  }

  lemma OneElement(f: Finding)
    ensures Elements([f]) == {f}
  {
  }

  lemma ElementsOfTail(errors: seq<Finding>, earlier: seq<Finding>, later: seq<Finding>)
    requires IsPrefix(errors, earlier) && IsPrefix(earlier, later)
    ensures IsPrefix(errors, later)
    ensures Elements(later[|errors|..]) == Elements(earlier[|errors|..]) + Elements(later[|earlier|..])
  {
    PrefixTransitive(errors, earlier, later);
    var a, b := earlier[|errors|..], later[|earlier|..];
    assert later[|errors|..] == a + b;
    assert forall f :: f in a + b <==> f in a || f in b;
  }

  // ----- paths -----

  /** The schema of a property, if there is one. */
  function Child(v: Value, p: string): (c: Option<Value>)
    ensures c.Some? ==> c.value < v
  {
    match v.Get("properties")
    case Some(Object(fields)) => if p in fields then Some(fields[p]) else None
    case _ => None
  }

  /** A value is in the list under a key. */
  predicate Lists(v: Value, key: string, x: Value) {
    && v.Get(key).Some? && v.Get(key).value.Array?
    && exists i :: 0 <= i < |v.Get(key).value.items| && v.Get(key).value.items[i] == x
  }

  /** The schema at a path of property names. */
  function NodeAt(v: Value, path: seq<string>): Option<Value>
    decreases |path|
  {
    if path == [] then Some(v)
    else
      match Child(v, path[0])
      case Some(c) => NodeAt(c, path[1..])
      case None => None
  }

  /** The comparison gets to a path when every schema on the way there is an object on
      both sides. */
  predicate Reached(before: Value, after: Value, path: seq<string>)
    decreases |path|
  {
    && before.Object? && after.Object?
    && (path != [] ==>
          Child(before, path[0]).Some? && Child(after, path[0]).Some? &&
          Reached(Child(before, path[0]).value, Child(after, path[0]).value, path[1..]))
  }

  /** What has to hold of the two schemas at one path: the types are equal, every enum
      value is still one, nothing is required that was not, what could be null may not
      be declared to be never null, and every property is still there. */
  ghost predicate InOrder(b: Value, a: Value) {
    && b.Get("type").GetOr(Null) == a.Get("type").GetOr(Null)
    && (forall x :: Lists(b, "enum", x) ==> Lists(a, "enum", x))
    && (forall x :: Lists(a, "required", x) ==> Lists(b, "required", x))
    && !(b.Get("nullable") == Some(Bool(true)) && a.Get("nullable") == Some(Bool(false)))
    && (forall p :: Child(b, p).Some? ==> Child(a, p).Some?)
  }

  ghost predicate PathOk(before: Value, after: Value, path: seq<string>) {
    NodeAt(before, path).Some? && NodeAt(after, path).Some? ==>
      InOrder(NodeAt(before, path).value, NodeAt(after, path).value)
  }

  lemma ChildIs(v: Value, p: string)
    ensures Child(v, p) == if p in Properties(v) then Some(Properties(v)[p]) else None
  {
  }

  lemma ListedMeans(v: Value, x: Value)
    ensures x in Enum(v) <==> Lists(v, "enum", x)
    ensures x in Required(v) <==> Lists(v, "required", x)
  {
  }

  lemma EnumsIn(b: Value, a: Value)
    ensures (Enum(b) != {} ==> Enum(b) <= Enum(a)) <==> forall x :: Lists(b, "enum", x) ==> Lists(a, "enum", x)
  {
    forall x ensures (x in Enum(b) <==> Lists(b, "enum", x)) && (x in Enum(a) <==> Lists(a, "enum", x)) {
      ListedMeans(b, x);
      ListedMeans(a, x);
    }
    hide Lists, Enum;
  }

  lemma RequiredIn(b: Value, a: Value)
    ensures Required(a) <= Required(b) <==> forall x :: Lists(a, "required", x) ==> Lists(b, "required", x)
  {
    forall x ensures (x in Required(b) <==> Lists(b, "required", x)) && (x in Required(a) <==> Lists(a, "required", x)) {
      ListedMeans(b, x);
      ListedMeans(a, x);
    }
    hide Lists, Required;
  }

  lemma InOrderMeans(b: Value, a: Value)
    ensures InOrder(b, a) <==> NodeOk(b, a) && forall p :: p in Properties(b) ==> p in Properties(a)
  {
    EnumsIn(b, a);
    RequiredIn(b, a);
    forall p ensures (Child(b, p).Some? <==> p in Properties(b)) && (Child(a, p).Some? <==> p in Properties(a)) {
      ChildIs(b, p);
      ChildIs(a, p);
    }
    hide Lists, Enum, Required, Child, Properties;
  }

  /** Every path the comparison reaches in compatible schemas is in order. */
  lemma {:induction false} CompatiblePath(before: Value, after: Value, path: seq<string>)
    requires Compatible(before, after) && Reached(before, after, path)
    ensures PathOk(before, after, path)
    decreases |path|
  {
    hide NodeOk, Properties, InOrder, Child;
    InOrderMeans(before, after);
    if path != [] {
      ChildIs(before, path[0]);
      ChildIs(after, path[0]);
      CompatiblePath(Properties(before)[path[0]], Properties(after)[path[0]], path[1..]);
    }
  }

  lemma {:induction false} PathsCompatible(before: Value, after: Value)
    requires forall path :: Reached(before, after, path) ==> PathOk(before, after, path)
    ensures Compatible(before, after)
    decreases before
  {
    hide NodeOk, Properties, InOrder, Child;
    if before.Object? && after.Object? {
      assert Reached(before, after, []) && PathOk(before, after, []);
      InOrderMeans(before, after);
      forall p | p in Properties(before) ensures p in Properties(after) && Compatible(Properties(before)[p], Properties(after)[p]) {
        var b, a := Properties(before)[p], Properties(after)[p];
        ChildIs(before, p);
        ChildIs(after, p);
        forall path | Reached(b, a, path) ensures PathOk(b, a, path) {
          assert ([p] + path)[1..] == path;
          assert Reached(before, after, [p] + path);
          assert PathOk(before, after, [p] + path);
        }
        PathsCompatible(b, a);
      }
    }
  }

  /** The check passes exactly when every path it reaches is in order. */
  lemma PassesIffPathsOk(name: string, before: Value, after: Value)
    ensures Findings(name, before, after) == {} <==> forall path :: Reached(before, after, path) ==> PathOk(before, after, path)
  {
    NoFindingsIff(name, before, after);
    hide Compatible, Reached, PathOk, Findings;
    if Compatible(before, after) {
      forall path | Reached(before, after, path) ensures PathOk(before, after, path) {
        CompatiblePath(before, after, path);
      }
    } else if forall path :: Reached(before, after, path) ==> PathOk(before, after, path) {
      PathsCompatible(before, after);
    }
  }

  // ----- which errors, path by path -----

  /** The name the comparison gives a path. */
  function NameAt(name: string, path: seq<string>): string
    decreases |path|
  {
    if path == [] then name else NameAt(name + "." + path[0], path[1..])
  }

  /** An error says what is wrong with the two schemas at one path. */
  ghost predicate Reports(f: Finding, name: string, b: Value, a: Value) {
    match f
    case ChangedType(at) => at == name && b.Get("type").GetOr(Null) != a.Get("type").GetOr(Null)
    case NarrowedEnum(at, removed) =>
      at == name && removed != {} && forall x :: x in removed <==> Lists(b, "enum", x) && !Lists(a, "enum", x)
    case NewlyRequired(at, added) =>
      at == name && added != {} && forall x :: x in added <==> Lists(a, "required", x) && !Lists(b, "required", x)
    case RemovedField(at) => exists p :: Child(b, p).Some? && Child(a, p).None? && at == name + "." + p
    case NarrowedNullability(at) =>
      at == name && b.Get("nullable") == Some(Bool(true)) && a.Get("nullable") == Some(Bool(false))
    case RemovedNull(at) => at == name && Lists(b, "type", Str("null")) && !Lists(a, "type", Str("null"))
  }

  ghost predicate OwnFinding(f: Finding, name: string, b: Value, a: Value) {
    || f in HeadFindings(name, b, a) || f in TailFindings(name, b, a)
    || exists p :: p in Properties(b) && p !in Properties(a) && f == RemovedField(Dotted(name, p))
  }

  lemma WhenIn(condition: bool, f: Finding, g: Finding)
    ensures g in When(condition, f) <==> condition && g == f
  {
  }

  /** The values listed under a key before and not after. */
  lemma MissingValues(from: set<Value>, to: set<Value>, missing: set<Value>, b: Value, a: Value, key: string)
    requires forall x :: x in from <==> Lists(b, key, x)
    requires forall x :: x in to <==> Lists(a, key, x)
    ensures missing == from - to <==> forall x :: x in missing <==> Lists(b, key, x) && !Lists(a, key, x)
  {
    hide Lists;
  }

  lemma EnumReports(f: Finding, name: string, b: Value, a: Value)
    requires f.NarrowedEnum?
    ensures Reports(f, name, b, a) <==> Enum(b) != {} && !(Enum(b) <= Enum(a)) && f == NarrowedEnum(name, Enum(b) - Enum(a))
  {
    forall x ensures (x in Enum(b) <==> Lists(b, "enum", x)) && (x in Enum(a) <==> Lists(a, "enum", x)) {
      ListedMeans(b, x);
      ListedMeans(a, x);
    }
    DifferenceEmpty(Enum(b), Enum(a));
    MissingValues(Enum(b), Enum(a), f.removed, b, a, "enum");
    hide Enum, Lists, Child;
  }

  lemma RequiredReports(f: Finding, name: string, b: Value, a: Value)
    requires f.NewlyRequired?
    ensures Reports(f, name, b, a) <==> Required(a) - Required(b) != {} && f == NewlyRequired(name, Required(a) - Required(b))
  {
    forall x ensures (x in Required(b) <==> Lists(b, "required", x)) && (x in Required(a) <==> Lists(a, "required", x)) {
      ListedMeans(b, x);
      ListedMeans(a, x);
    }
    MissingValues(Required(a), Required(b), f.added, a, b, "required");
    hide Required, Lists, Child;
  }

  lemma HeadReports(f: Finding, name: string, b: Value, a: Value)
    ensures f in HeadFindings(name, b, a) <==>
      Reports(f, name, b, a) && (f.ChangedType? || f.NarrowedEnum? || f.NewlyRequired?)
  {
    WhenIn(TypeOf(b) != TypeOf(a), ChangedType(name), f);
    WhenIn(Enum(b) != {} && !(Enum(b) <= Enum(a)), NarrowedEnum(name, Enum(b) - Enum(a)), f);
    WhenIn(Required(a) - Required(b) != {}, NewlyRequired(name, Required(a) - Required(b)), f);
    if f.NarrowedEnum? {
      EnumReports(f, name, b, a);
    } else if f.NewlyRequired? {
      RequiredReports(f, name, b, a);
    }
    assert f.ChangedType? ==> (Reports(f, name, b, a) <==> f.at == name && TypeOf(b) != TypeOf(a));
    hide Enum, Required, TypeOf, When, Reports;
  }

  lemma TailReports(f: Finding, name: string, b: Value, a: Value)
    ensures f in TailFindings(name, b, a) <==> Reports(f, name, b, a) && (f.NarrowedNullability? || f.RemovedNull?)
  {
    assert HasNull(TypeOf(b)) <==> Lists(b, "type", Str("null"));
    assert HasNull(TypeOf(a)) <==> Lists(a, "type", Str("null"));
    hide HasNull, TypeOf, Lists, Child;
  }

  lemma OwnReports(f: Finding, name: string, b: Value, a: Value)
    ensures OwnFinding(f, name, b, a) <==> Reports(f, name, b, a)
  {
    HeadReports(f, name, b, a);
    TailReports(f, name, b, a);
    forall p ensures (Child(b, p).Some? <==> p in Properties(b)) && (Child(a, p).Some? <==> p in Properties(a)) {
      ChildIs(b, p);
      ChildIs(a, p);
    }
    hide HeadFindings, TailFindings, Child, Properties, Lists;
    if f.RemovedField? && Reports(f, name, b, a) {
      var p :| Child(b, p).Some? && Child(a, p).None? && f.at == name + "." + p;
      assert f == RemovedField(Dotted(name, p));
    }
  }

  lemma FindingsSplit(f: Finding, name: string, before: Value, after: Value)
    requires before.Object? && after.Object?
    ensures f in Findings(name, before, after) <==>
      || OwnFinding(f, name, before, after)
      || exists p :: p in Properties(before) && p in Properties(after) &&
           f in Findings(Dotted(name, p), Properties(before)[p], Properties(after)[p])
  {
    hide HeadFindings, TailFindings, Properties, Dotted;
    var under := UnderProperties(name, before, after, Properties(before).Keys);
    assert f in under <==> exists p :: p in Properties(before) && f in PropertyFindings(name, before, after, p);
  }

  /** The comparison gets to a path and the error is about the schemas there. */
  ghost predicate ReportedAt(f: Finding, name: string, before: Value, after: Value, path: seq<string>) {
    && Reached(before, after, path)
    && NodeAt(before, path).Some? && NodeAt(after, path).Some?
    && Reports(f, NameAt(name, path), NodeAt(before, path).value, NodeAt(after, path).value)
  }

  /** The errors reported are exactly what is wrong at the paths the comparison reaches,
      each under the name of its path and with the values it is about. */
  lemma {:induction false} FindingsByPath(f: Finding, name: string, before: Value, after: Value)
    ensures f in Findings(name, before, after) <==> exists path :: ReportedAt(f, name, before, after, path)
    decreases before, 1
  {
    hide OwnFinding, Properties, Child, Reports;
    if before.Object? && after.Object? {
      FindingsSplit(f, name, before, after);
      OwnReports(f, name, before, after);
      hide Findings;
      assert ReportedAt(f, name, before, after, []) <==> OwnFinding(f, name, before, after);
      forall p | p in Properties(before) && p in Properties(after)
        ensures f in Findings(Dotted(name, p), Properties(before)[p], Properties(after)[p]) <==>
          exists path :: path != [] && path[0] == p && ReportedAt(f, name, before, after, path)
      {
        FindingsBelow(f, name, before, after, p);
      }
      hide ReportedAt, Dotted;
      forall path | path != [] && ReportedAt(f, name, before, after, path)
        ensures path[0] in Properties(before) && path[0] in Properties(after)
      {
        FirstStep(f, name, before, after, path);
      }
    } else {
      assert forall path :: !Reached(before, after, path);
    }
  }

  lemma FirstStep(f: Finding, name: string, before: Value, after: Value, path: seq<string>)
    requires path != [] && ReportedAt(f, name, before, after, path)
    ensures path[0] in Properties(before) && path[0] in Properties(after)
    ensures ReportedAt(f, Dotted(name, path[0]), Properties(before)[path[0]], Properties(after)[path[0]], path[1..])
  {
    hide Properties, Child, Reports;
    ChildIs(before, path[0]);
    ChildIs(after, path[0]);
  }

  lemma {:induction false} FindingsBelow(f: Finding, name: string, before: Value, after: Value, p: string)
    requires before.Object? && after.Object? && p in Properties(before) && p in Properties(after)
    ensures f in Findings(Dotted(name, p), Properties(before)[p], Properties(after)[p]) <==>
      exists path :: path != [] && path[0] == p && ReportedAt(f, name, before, after, path)
    decreases before, 0
  {
    var b, a := Properties(before)[p], Properties(after)[p];
    ChildIs(before, p);
    ChildIs(after, p);
    FindingsByPath(f, Dotted(name, p), b, a);
    hide Properties, Child, Reports, Findings;
    if f in Findings(Dotted(name, p), b, a) {
      var path :| ReportedAt(f, Dotted(name, p), b, a, path);
      var longer := [p] + path;
      assert longer[1..] == path && longer[0] == p;
      assert ReportedAt(f, name, before, after, longer);
    }
    forall path | path != [] && path[0] == p && ReportedAt(f, name, before, after, path)
      ensures f in Findings(Dotted(name, p), b, a)
    {
      FirstStep(f, name, before, after, path);
    }
  }

  // ----- reflexive and, with care, transitive -----

  lemma {:induction false} CompatibleReflexive(v: Value)
    ensures Compatible(v, v)
    decreases v
  {
    forall p | p in Properties(v) ensures Compatible(Properties(v)[p], Properties(v)[p]) {
      CompatibleReflexive(Properties(v)[p]);
    }
  }

  /** A schema without gaps: an object that says whether it is nullable, and so are
      all its properties. */
  predicate Gapless(v: Value)
    decreases v
  {
    v.Object? && (Nullable(v, true) || Nullable(v, false)) && forall p :: p in Properties(v) ==> Gapless(Properties(v)[p])
  }

  /** Two compatible changes through a schema without gaps make a compatible change. */
  lemma {:induction false} CompatibleTransitive(a: Value, b: Value, c: Value)
    requires Gapless(b) && Compatible(a, b) && Compatible(b, c)
    ensures Compatible(a, c)
    decreases b
  {
    hide TypeOf, Enum, Required, Properties, Nullable;
    if a.Object? && c.Object? {
      NullableOnce(b);
      forall p | p in Properties(a) ensures p in Properties(c) && Compatible(Properties(a)[p], Properties(c)[p]) {
        CompatibleTransitive(Properties(a)[p], Properties(b)[p], Properties(c)[p]);
      }
    }
  }

  lemma NullableOnce(b: Value)
    ensures !(Nullable(b, true) && Nullable(b, false))
  {
  }

  // ----- gaps break transitivity -----

  const ANYTHING := Object(map["type" := Str("string")])
  const UNTYPED := Object(map[])

  /** A value that is not an object hides a change of type. */
  lemma NonObjectHidesChange(b: Value)
    requires !b.Object?
    ensures Compatible(ANYTHING, b) && Compatible(b, UNTYPED) && !Compatible(ANYTHING, UNTYPED)
  {
    assert TypeOf(ANYTHING) == Str("string") && TypeOf(UNTYPED) == Null;
  }

  function WithNullable(b: Value, value: bool): Value
    requires b.Object?
  {
    Object(b.fields["nullable" := Bool(value)])
  }

  lemma OtherKeysSame(b: Value, value: bool)
    requires b.Object?
    ensures var w := WithNullable(b, value);
      TypeOf(w) == TypeOf(b) && Enum(w) == Enum(b) && Required(w) == Required(b) && Properties(w) == Properties(b)
    ensures Nullable(WithNullable(b, value), value) && !Nullable(WithNullable(b, value), !value)
  {
    assert "nullable" != "type" && "nullable" != "enum" && |"nullable"| == |"required"| && "nullable"[0] != "required"[0];
    assert |"nullable"| != |"properties"|;
  }

  lemma SamePropertiesCompatible(a: Value, b: Value)
    requires Properties(a) == Properties(b) && (a.Object? && b.Object? ==> NodeOk(a, b))
    ensures Compatible(a, b)
  {
    forall p | p in Properties(a) ensures Compatible(Properties(a)[p], Properties(b)[p]) {
      CompatibleReflexive(Properties(a)[p]);
    }
    hide NodeOk;
  }

  /** A schema that does not say whether it is nullable lets null be withdrawn. */
  lemma UnsaidNullableHidesChange(b: Value)
    requires b.Object? && !Nullable(b, true) && !Nullable(b, false)
    ensures var a, c := WithNullable(b, true), WithNullable(b, false);
      Compatible(a, b) && Compatible(b, c) && !Compatible(a, c)
  {
    var a, c := WithNullable(b, true), WithNullable(b, false);
    OtherKeysSame(b, true);
    OtherKeysSame(b, false);
    hide TypeOf, Enum, Required, Properties, Nullable, WithNullable;
    SamePropertiesCompatible(a, b);
    SamePropertiesCompatible(b, c);
  }

  function WithProperty(b: Value, p: string, v: Value): Value
    requires b.Object? && p in Properties(b)
  {
    Object(b.fields["properties" := Object(Properties(b)[p := v])])
  }

  lemma OtherPropertiesSame(b: Value, p: string, v: Value)
    requires b.Object? && p in Properties(b)
    ensures var w := WithProperty(b, p, v);
      TypeOf(w) == TypeOf(b) && Enum(w) == Enum(b) && Required(w) == Required(b) && Properties(w) == Properties(b)[p := v]
    ensures forall x :: Nullable(WithProperty(b, p, v), x) == Nullable(b, x)
  {
    assert |"properties"| == 10 && |"type"| == 4 && |"enum"| == 4 && |"required"| == 8 && |"nullable"| == 8;
  }

  /** Changing one property, compatibly or not, changes the whole the same way. */
  lemma PropertyDecides(b: Value, p: string, v: Value, w: Value)
    requires b.Object? && p in Properties(b)
    ensures Compatible(WithProperty(b, p, v), WithProperty(b, p, w)) <==> Compatible(v, w)
  {
    var a, c := WithProperty(b, p, v), WithProperty(b, p, w);
    OtherPropertiesSame(b, p, v);
    OtherPropertiesSame(b, p, w);
    NullableOnce(b);
    forall q | q in Properties(b) && q != p ensures Compatible(Properties(b)[q], Properties(b)[q]) {
      CompatibleReflexive(Properties(b)[q]);
    }
    hide TypeOf, Enum, Required, Properties, Nullable;
    assert a.Object? && c.Object? && NodeOk(a, c);
    assert p in Properties(a) && Properties(a)[p] == v && Properties(c)[p] == w;
    forall q | q in Properties(a) && q != p ensures Properties(a)[q] == Properties(b)[q] == Properties(c)[q] {
    }
  }

  /** Every schema with a gap lets some breaking change through in two steps. */
  lemma {:induction false} GapHidesChange(b: Value) returns (a: Value, c: Value)
    requires !Gapless(b)
    ensures Compatible(a, b) && Compatible(b, c) && !Compatible(a, c)
    decreases b
  {
    if !b.Object? {
      a, c := ANYTHING, UNTYPED;
      NonObjectHidesChange(b);
    } else if !Nullable(b, true) && !Nullable(b, false) {
      a, c := WithNullable(b, true), WithNullable(b, false);
      UnsaidNullableHidesChange(b);
    } else {
      var p :| p in Properties(b) && !Gapless(Properties(b)[p]);
      var v, w := GapHidesChange(Properties(b)[p]);
      a, c := WithProperty(b, p, v), WithProperty(b, p, w);
      PropertyDecides(b, p, v, w);
      PropertyReplaced(b, p, v);
      PropertyReplaced(b, p, w);
    }
  }

  lemma PropertyReplaced(b: Value, p: string, v: Value)
    requires b.Object? && p in Properties(b)
    ensures Compatible(WithProperty(b, p, v), b) <==> Compatible(v, Properties(b)[p])
    ensures Compatible(b, WithProperty(b, p, v)) <==> Compatible(Properties(b)[p], v)
  {
    OtherPropertiesSame(b, p, v);
    NullableOnce(b);
    forall q | q in Properties(b) && q != p ensures Compatible(Properties(b)[q], Properties(b)[q]) {
      CompatibleReflexive(Properties(b)[q]);
    }
    hide TypeOf, Enum, Required, Properties, Nullable;
    assert WithProperty(b, p, v).Object?;
  }

  ghost predicate TransitiveThrough(b: Value) {
    forall a, c :: Compatible(a, b) && Compatible(b, c) ==> Compatible(a, c)
  }

  /** Checking release by release finds every break that a direct check would,
      exactly when the release in between has no gaps. */
  lemma TransitiveIffGapless(b: Value)
    ensures TransitiveThrough(b) <==> Gapless(b)
  {
    hide Compatible, Gapless;
    if Gapless(b) {
      forall a, c | Compatible(a, b) && Compatible(b, c) ensures Compatible(a, c) {
        CompatibleTransitive(a, b, c);
      }
    } else {
      var a, c := GapHidesChange(b);
    }
  }
}
