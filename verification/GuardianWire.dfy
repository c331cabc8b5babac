/**
 The request line of the native observer (src/command/acceptance_scratch_guardian.rs): the
 request as a JSON object, the sidecar key with the selected checks, and the selection of
 pinned checks. JSON text is an inverse pair of functions with the properties listed in
 `Lawful`; the policy inside the request is any value with such a pair.
 */
module GuardianWire {
  import opened Wrappers
  import opened Octets
  import opened Orders
  import Text

  datatype Json =
    | Null
    | Boolean(b: bool)
    | Number(n: int)
    | Str(s: string)
    | Arr(items: seq<Json>)
    | Obj(fields: map<string, Json>)

  const U32_MAX := 0xffff_ffff

  datatype Limits = Limits(buildJobs: nat, incremental: bool, resourceClass: string)

  datatype Request<P> = Request(
    policy: P,
    sourceCommit: string,
    pinPath: string,
    expectedPinDigest: string,
    evidence: string,
    resourceLimits: Option<Limits>)

  type Selection = Option<set<string>>

  const CHECK_IDS_KEY := "check_ids"

  const NEWLINE: Byte := 10

  // JSON text and the policy's own JSON form.
  datatype Wire<!P> = Wire(
    encode: Json -> Bytes,
    decode: Bytes -> Option<Json>,
    isUtf8: Bytes -> bool,
    policyTo: P -> Json,
    policyFrom: Json -> Option<P>)

  ghost predicate Lawful<P(!new)>(w: Wire<P>) {
    && (forall v :: w.decode(w.encode(v)) == Some(v))
    && (forall v :: NEWLINE !in w.encode(v) && w.isUtf8(w.encode(v)))
    && (forall p :: w.policyFrom(w.policyTo(p)) == Some(p))
  }

  datatype ParseError =
    | NotUtf8
    | NotJson
    | BadSelection
    | BadRequest
    | MissingLimits(pinPath: string)

  // ---------- Values ----------

  function LimitsTo(l: Limits): Json {
    Obj(map["build_jobs" := Number(l.buildJobs), "incremental" := Boolean(l.incremental),
            "resource_class" := Str(l.resourceClass)])
  }

  function LimitsFrom(v: Json): Option<Limits> {
    if !v.Obj? || !({"build_jobs", "incremental", "resource_class"} <= v.fields.Keys) then None
    else
      var jobs, incremental, class_ := v.fields["build_jobs"], v.fields["incremental"], v.fields["resource_class"];
      if jobs.Number? && 0 <= jobs.n <= U32_MAX && incremental.Boolean? && class_.Str?
      then Some(Limits(jobs.n, incremental.b, class_.s))
      else None
  }

  function RequestTo<P>(r: Request<P>, w: Wire<P>): Json {
    var fields := map["policy" := w.policyTo(r.policy), "source_commit" := Str(r.sourceCommit),
                      "pin_path" := Str(r.pinPath), "expected_pin_digest" := Str(r.expectedPinDigest),
                      "evidence" := Str(r.evidence)];
    Obj(if r.resourceLimits.Some? then fields["resource_limits" := LimitsTo(r.resourceLimits.value)] else fields)
  }

  const REQUIRED := {"policy", "source_commit", "pin_path", "expected_pin_digest", "evidence"}

  // Unknown fields are refused; missing limits and null limits read as none.
  function RequestFrom<P>(v: Json, w: Wire<P>): Option<Request<P>> {
    if !v.Obj? || !(REQUIRED <= v.fields.Keys <= REQUIRED + {"resource_limits"}) then None
    else
      var policy := w.policyFrom(v.fields["policy"]);
      var commit, pin, digest, evidence :=
        v.fields["source_commit"], v.fields["pin_path"], v.fields["expected_pin_digest"], v.fields["evidence"];
      if policy.None? || !commit.Str? || !pin.Str? || !digest.Str? || !evidence.Str? then None
      else if "resource_limits" !in v.fields || v.fields["resource_limits"].Null? then
        Some(Request(policy.value, commit.s, pin.s, digest.s, evidence.s, None))
      else
        var limits := LimitsFrom(v.fields["resource_limits"]);
        if limits.None? then None
        else Some(Request(policy.value, commit.s, pin.s, digest.s, evidence.s, limits))
  }

  function CompareStrings(a: string, b: string): int {
    Lex((x: char, y: char) => CompareInts(x as int, y as int), a, b)
  }

  lemma StringsAreOrdered()
    ensures Ordering(CompareStrings)
  {
    LexOrdering((x: char, y: char) => CompareInts(x as int, y as int), CompareStrings);
  }

  ghost function Elements(s: set<string>): (list: seq<string>)
    ensures forall x :: x in list <==> x in s
    ensures |list| == |s|
  {
    if s == {} then []
    else
      var x :| x in s;
      [x] + Elements(s - {x})
  }

  // A set is written in order, as an ordered set iterates.
  ghost function Listed(s: set<string>): (list: seq<string>)
    ensures forall x :: x in list <==> x in s
  {
    var list := Sort(CompareStrings, Elements(s));
    assert forall x :: x in list <==> x in multiset(list);
    assert forall x :: x in Elements(s) <==> x in multiset(Elements(s));
    list
  }

  // What is written is the set in strictly rising order, each id once.
  lemma ListedInOrder(s: set<string>)
    ensures Sorted(CompareStrings, Listed(s)) && |Listed(s)| == |s|
    ensures forall x :: x in Listed(s) <==> x in s
  {
    StringsAreOrdered();
    SortSorts(CompareStrings, Elements(s));
    assert |multiset(Listed(s))| == |multiset(Elements(s))|;
  }

  // No other list of the same ids is in order, so the written line does not depend on how
  // the set was built.
  lemma ListedIsTheOnly(s: set<string>, list: seq<string>)
    requires Sorted(CompareStrings, list) && multiset(list) == multiset(Listed(s))
    ensures list == Listed(s)
  {
    StringsAreOrdered();
    ListedInOrder(s);
    SortedUnique(CompareStrings, list, Listed(s));
  }

  function Strings(list: seq<string>): (items: seq<Json>)
    ensures |items| == |list| && forall i :: 0 <= i < |list| ==> items[i] == Str(list[i])
  {
    seq(|list|, i requires 0 <= i < |list| => Str(list[i]))
  }

  // Repeated ids collapse; anything but an array of strings is an error.
  function SelectionFrom(v: Json): Option<set<string>> {
    if v.Arr? && forall i :: 0 <= i < |v.items| ==> v.items[i].Str?
    then Some(set i | 0 <= i < |v.items| :: v.items[i].s)
    else None
  }

  // ---------- The line ----------

  ghost function LineValue<P>(r: Request<P>, selection: Selection, w: Wire<P>): Json {
    var v := RequestTo(r, w);
    if selection.Some? then Obj(v.fields[CHECK_IDS_KEY := Arr(Strings(Listed(selection.value)))]) else v
  }

  ghost function RequestLine<P>(r: Request<P>, selection: Selection, w: Wire<P>): Bytes {
    w.encode(LineValue(r, selection, w)) + [NEWLINE]
  }

  function PinPathText(v: Json): string {
    if v.Obj? && "pin_path" in v.fields && v.fields["pin_path"].Str? then v.fields["pin_path"].s
    else "<unknown pin_path>"
  }

  function ParseValue<P>(v: Json, w: Wire<P>): Result<(Request<P>, Selection), ParseError> {
    var hasIds := v.Obj? && CHECK_IDS_KEY in v.fields;
    var selected := if hasIds then SelectionFrom(v.fields[CHECK_IDS_KEY]) else None;
    if hasIds && selected.None? then Err(BadSelection)
    else
      var request := RequestFrom(if hasIds then Obj(v.fields - {CHECK_IDS_KEY}) else v, w);
      if request.None? then Err(BadRequest)
      else if request.value.resourceLimits.None? then Err(MissingLimits(PinPathText(v)))
      else Ok((request.value, selected))
  }

  function ParseRequestLine<P>(line: Bytes, w: Wire<P>): Result<(Request<P>, Selection), ParseError> {
    if !w.isUtf8(line) then Err(NotUtf8)
    else
      var v := w.decode(line);
      if v.None? then Err(NotJson) else ParseValue(v.value, w)
  }

  // ---------- What is accepted, field by field ----------

  predicate IsLimits(v: Json, l: Limits) {
    && v.Obj? && v.fields.Keys >= {"build_jobs", "incremental", "resource_class"}
    && v.fields["build_jobs"] == Number(l.buildJobs)
    && v.fields["incremental"] == Boolean(l.incremental) && v.fields["resource_class"] == Str(l.resourceClass)
  }

  predicate IsSelection(v: Json, ids: set<string>) {
    v.Arr? && (forall i :: 0 <= i < |v.items| ==> v.items[i].Str?) && ids == set i | 0 <= i < |v.items| :: v.items[i].s
  }

  // The fields of a request other than its limits, in an object.
  ghost predicate HasFields<P>(fields: map<string, Json>, r: Request<P>, w: Wire<P>) {
    && fields.Keys >= {"policy", "source_commit", "pin_path", "expected_pin_digest", "evidence"}
    && w.policyFrom(fields["policy"]) == Some(r.policy)
    && fields["source_commit"] == Str(r.sourceCommit)
    && fields["pin_path"] == Str(r.pinPath)
    && fields["expected_pin_digest"] == Str(r.expectedPinDigest)
    && fields["evidence"] == Str(r.evidence)
  }

  lemma LimitsExactly(v: Json, l: Limits)
    ensures LimitsFrom(v) == Some(l) <==> IsLimits(v, l) && l.buildJobs < 0x1_0000_0000
  {}

  lemma RequestExactly<P>(v: Json, r: Request<P>, w: Wire<P>)
    ensures RequestFrom(v, w) == Some(r) <==>
              && v.Obj? && HasFields(v.fields, r, w)
              && v.fields.Keys <= {"policy", "source_commit", "pin_path", "expected_pin_digest", "evidence", "resource_limits"}
              && if r.resourceLimits.Some?
                 then "resource_limits" in v.fields && IsLimits(v.fields["resource_limits"], r.resourceLimits.value)
                      && r.resourceLimits.value.buildJobs < 0x1_0000_0000
                 else "resource_limits" !in v.fields || v.fields["resource_limits"].Null?
  {
    if r.resourceLimits.Some? && v.Obj? && "resource_limits" in v.fields {
      LimitsExactly(v.fields["resource_limits"], r.resourceLimits.value);
    }
  }

  // A value is accepted exactly when it has the six fields with their types, no other one
  // but the selection, and the selection, if there, is a list of strings.
  lemma ParsedExactly<P>(v: Json, r: Request<P>, selection: Selection, w: Wire<P>)
    ensures ParseValue(v, w) == Ok((r, selection)) <==>
              && v.Obj? && HasFields(v.fields, r, w)
              && v.fields.Keys <= {"policy", "source_commit", "pin_path", "expected_pin_digest", "evidence", "resource_limits", "check_ids"}
              && r.resourceLimits.Some? && "resource_limits" in v.fields
              && IsLimits(v.fields["resource_limits"], r.resourceLimits.value)
              && r.resourceLimits.value.buildJobs < 0x1_0000_0000
              && if "check_ids" in v.fields
                 then selection.Some? && IsSelection(v.fields["check_ids"], selection.value)
                 else selection.None?
  {
    if v.Obj? {
      RequestExactly(Obj(v.fields - {"check_ids"}), r, w);
      assert "check_ids" !in v.fields ==> v.fields - {"check_ids"} == v.fields;
    }
  }

  // A selection that is no list of strings is named first, and limits that are missing or
  // null last.
  lemma RefusedExactly<P>(v: Json, w: Wire<P>)
    ensures ParseValue(v, w) == Err(BadSelection) <==>
              v.Obj? && "check_ids" in v.fields && forall ids :: !IsSelection(v.fields["check_ids"], ids)
    ensures ParseValue(v, w).Err? && ParseValue(v, w).error.MissingLimits? ==>
              && v.Obj? && "pin_path" in v.fields && v.fields["pin_path"] == Str(ParseValue(v, w).error.pinPath)
              && ("resource_limits" !in v.fields || v.fields["resource_limits"].Null?)
  {
    if v.Obj? && "check_ids" in v.fields && SelectionFrom(v.fields["check_ids"]).Some? {
      assert IsSelection(v.fields["check_ids"], SelectionFrom(v.fields["check_ids"]).value);
    }
  }

  // What is written, field by field.
  lemma WrittenExactly<P>(r: Request<P>, selection: Selection, w: Wire<P>)
    ensures var v := LineValue(r, selection, w);
            && v.Obj?
            && v.fields.Keys == {"policy", "source_commit", "pin_path", "expected_pin_digest", "evidence"}
                                + (if r.resourceLimits.Some? then {"resource_limits"} else {})
                                + (if selection.Some? then {"check_ids"} else {})
            && IsWritten(v.fields, r, w)
            && (selection.Some? ==> IsSelection(v.fields["check_ids"], selection.value))
  {
    FieldsWritten(r, w);
    if selection.Some? {
      SelectionRoundTrip(selection.value);
      StillWritten(RequestTo(r, w).fields, Arr(Strings(Listed(selection.value))), r, w);
    }
  }

  ghost predicate IsWritten<P>(fields: map<string, Json>, r: Request<P>, w: Wire<P>) {
    && "policy" in fields && fields["policy"] == w.policyTo(r.policy)
    && "source_commit" in fields && fields["source_commit"] == Str(r.sourceCommit)
    && "pin_path" in fields && fields["pin_path"] == Str(r.pinPath)
    && "expected_pin_digest" in fields && fields["expected_pin_digest"] == Str(r.expectedPinDigest)
    && "evidence" in fields && fields["evidence"] == Str(r.evidence)
    && (r.resourceLimits.Some? ==>
          && "resource_limits" in fields && IsLimits(fields["resource_limits"], r.resourceLimits.value)
          && fields["resource_limits"].fields.Keys == {"build_jobs", "incremental", "resource_class"})
  }

  lemma FieldsWritten<P>(r: Request<P>, w: Wire<P>)
    ensures IsWritten(RequestTo(r, w).fields, r, w)
    ensures RequestTo(r, w).fields.Keys == {"policy", "source_commit", "pin_path", "expected_pin_digest", "evidence"}
                                           + (if r.resourceLimits.Some? then {"resource_limits"} else {})
  {}

  lemma StillWritten<P>(fields: map<string, Json>, v: Json, r: Request<P>, w: Wire<P>)
    requires IsWritten(fields, r, w)
    ensures IsWritten(fields["check_ids" := v], r, w)
    ensures fields["check_ids" := v].Keys == fields.Keys + {"check_ids"}
  {}

  lemma LimitsRoundTrip(l: Limits)
    requires l.buildJobs <= U32_MAX
    ensures LimitsFrom(LimitsTo(l)) == Some(l)
  {}

  ghost predicate Fits<P>(r: Request<P>) {
    r.resourceLimits.Some? ==> r.resourceLimits.value.buildJobs <= U32_MAX
  }

  lemma RequestRoundTrip<P(!new)>(r: Request<P>, w: Wire<P>)
    requires Lawful(w) && Fits(r)
    ensures RequestFrom(RequestTo(r, w), w) == Some(r)
    ensures CHECK_IDS_KEY !in RequestTo(r, w).fields
    ensures PinPathText(RequestTo(r, w)) == r.pinPath
  {
    if r.resourceLimits.Some? {
      LimitsRoundTrip(r.resourceLimits.value);
    }
  }

  lemma SelectionRoundTrip(s: set<string>)
    ensures SelectionFrom(Arr(Strings(Listed(s)))) == Some(s)
  {
    var items := Strings(Listed(s));
    var back := set i | 0 <= i < |items| :: items[i].s;
    forall x | x in s ensures x in back {
      var i :| 0 <= i < |items| && Listed(s)[i] == x;
      assert items[i].s == x;
    }
    assert back == s;
  }

  lemma WithoutAdded<K, V>(m: map<K, V>, k: K, v: V)
    requires k !in m
    ensures m[k := v] - {k} == m
  {}

  // The parsed line is the request and the selection that were written, absent and empty
  // selections told apart, exactly when the request carries limits; without them the error
  // names its pin.
  lemma LineRoundTrip<P(!new)>(r: Request<P>, selection: Selection, w: Wire<P>)
    requires Lawful(w) && Fits(r)
    ensures ParseRequestLine(w.encode(LineValue(r, selection, w)), w) ==
            if r.resourceLimits.Some? then Ok((r, selection)) else Err(MissingLimits(r.pinPath))
  {
    RequestRoundTrip(r, w);
    if selection.Some? {
      SelectionRoundTrip(selection.value);
      var fields := RequestTo(r, w).fields;
      WithoutAdded(fields, CHECK_IDS_KEY, Arr(Strings(Listed(selection.value))));
    }
  }

  // ---------- The selection of checks ----------

  datatype Check = Command(command: string) | Floor(verifier: Option<string>)

  datatype Entry = Entry(id: string, check: Check)

  datatype Kind = CommandCheck | NestedVerifier

  datatype Ref = Ref(id: string, kind: Kind, chainDigest: string, commandDigest: string)

  datatype Contract = Contract(acceptance: seq<Entry>, supplementary: seq<Entry>)

  function Entries(c: Contract): seq<Entry> {
    c.acceptance + c.supplementary
  }

  function Ids(entries: seq<Entry>): set<string> {
    set i | 0 <= i < |entries| :: entries[i].id
  }

  // A floor without a typed verifier has no command to run.
  function RefOf(e: Entry, chain: string, digest: string -> string): seq<Ref> {
    match e.check
    case Command(command) => [Ref(e.id, CommandCheck, chain, digest(command))]
    case Floor(Some(verifier)) => [Ref(e.id, NestedVerifier, chain, digest(verifier))]
    case Floor(None) => []
  }

  function Refs(entries: seq<Entry>, chain: string, digest: string -> string): seq<Ref> {
    Text.Flat((e: Entry) => RefOf(e, chain, digest), entries)
  }

  datatype SelectError = UnknownCheck(id: string)

  // Unknown ids are refused, the first in order being named; otherwise the entries that are
  // selected, or all.
  ghost function SelectRefs(c: Contract, selection: Selection, chain: string, digest: string -> string)
    : Result<seq<Ref>, SelectError>
  {
    var entries := Entries(c);
    if selection.None? then Ok(Refs(entries, chain, digest))
    else
      var unknown := Unknown(entries, Listed(selection.value));
      if unknown != [] then Err(UnknownCheck(unknown[0]))
      else Ok(Refs(Text.Filter((e: Entry) => e.id in selection.value, entries), chain, digest))
  }

  lemma RefsOfSelected(entries: seq<Entry>, ids: set<string>, chain: string, digest: string -> string)
    ensures Refs(Text.Filter((e: Entry) => e.id in ids, entries), chain, digest)
         == Text.Filter((r: Ref) => r.id in ids, Refs(entries, chain, digest))
  {
    var f := (e: Entry) => RefOf(e, chain, digest);
    forall x, y | x in entries && y in f(x) ensures y.id in ids <==> x.id in ids {
      assert y in RefOf(x, chain, digest);
    }
    Text.FlatOfFiltered(f, (e: Entry) => e.id in ids, (r: Ref) => r.id in ids, entries);
  }

  function Unknown(entries: seq<Entry>, list: seq<string>): (unknown: seq<string>)
    ensures unknown == [] <==> forall x :: x in list ==> x in Ids(entries)
    ensures forall x :: x in unknown ==> x in list && x !in Ids(entries)
  {
    var unknown := Text.Filter((id: string) => id !in Ids(entries), list);
    assert unknown != [] ==> unknown[0] in unknown;
    unknown
  }

  // Entry by entry: a command, a floor with its verifier, a floor without one; the
  // acceptance entries first.
  lemma RefsExactly(c: Contract, entries: seq<Entry>, e: Entry, chain: string, digest: string -> string)
    ensures SelectRefs(c, None, chain, digest) ==
            Ok(Refs(c.acceptance, chain, digest) + Refs(c.supplementary, chain, digest))
    ensures Refs([], chain, digest) == []
    ensures Refs(entries + [e], chain, digest) == Refs(entries, chain, digest) +
            match e.check
            case Command(command) => [Ref(e.id, CommandCheck, chain, digest(command))]
            case Floor(Some(verifier)) => [Ref(e.id, NestedVerifier, chain, digest(verifier))]
            case Floor(None) => []
  {
    var f := (e: Entry) => RefOf(e, chain, digest);
    Text.FlatConcat(f, c.acceptance, c.supplementary);
    Text.FlatConcat(f, entries, [e]);
    assert [e][1..] == [] && Text.Flat(f, [e]) == f(e) + [];
  }

  // The first of the ids that do not stand in the contract.
  lemma {:induction false} FirstUnknown(entries: seq<Entry>, list: seq<string>)
    requires Sorted(CompareStrings, list)
    ensures Unknown(entries, list) != [] ==>
              forall id :: id in list && id !in Ids(entries) ==> CompareStrings(Unknown(entries, list)[0], id) <= 0
  {
    if list != [] {
      FirstUnknown(entries, list[1..]);
      StringsAreOrdered();
    }
  }

  // Ids are in order of the first character that differs, and a proper prefix comes first.
  lemma StringsExactly(a: string, b: string)
    ensures CompareStrings(a, b) < 0 <==>
              a < b || exists i :: 0 <= i < |a| && i < |b| && a[..i] == b[..i] && a[i] < b[i]
  {
    var cmp := (x: char, y: char) => CompareInts(x as int, y as int);
    LexExactly(cmp, a, b);
    assert forall i :: Undercuts(cmp, a, b, i) <==> 0 <= i < |a| && i < |b| && a[..i] == b[..i] && a[i] < b[i];
  }

  // A selection only ever narrows: it is accepted exactly when every id is pinned, and then
  // gives the references of the whole contract restricted to it, in order.
  lemma SelectionNarrows(c: Contract, ids: set<string>, chain: string, digest: string -> string)
    ensures var all := SelectRefs(c, None, chain, digest);
            var some := SelectRefs(c, Some(ids), chain, digest);
            && all.Ok?
            && (some.Ok? <==> ids <= Ids(Entries(c)))
            && (some.Ok? ==> some.value == Text.Filter((r: Ref) => r.id in ids, all.value))
            && (some.Err? ==>
                  && some.error.id in ids - Ids(Entries(c))
                  && forall id :: id in ids - Ids(Entries(c)) ==> CompareStrings(some.error.id, id) <= 0)
  {
    RefsOfSelected(Entries(c), ids, chain, digest);
    ListedInOrder(ids);
    FirstUnknown(Entries(c), Listed(ids));
    var unknown := Unknown(Entries(c), Listed(ids));
    if unknown != [] { assert unknown[0] in unknown; }
  }

  // An empty selection is not an absent one: it runs nothing.
  lemma EmptySelectionRunsNothing(c: Contract, chain: string, digest: string -> string)
    ensures SelectRefs(c, Some({}), chain, digest) == Ok([])
  {
    var none: set<string> := {};
    SelectionNarrows(c, none, chain, digest);
    Text.FilterAll((r: Ref) => r.id in none, Refs(Entries(c), chain, digest));
  }
}
