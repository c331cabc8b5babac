/**
 The learning-store migration (src/bin/archon_learning_migrate.rs): rows of a source are
 copied into a target unless their key is already there, and a lock may end the copying at
 any database operation.
 */
module Migration {
  import opened Wrappers
  import Text

  // A row: the values of its key columns and of the others.
  datatype Row = Row(key: seq<string>, rest: seq<string>)

  // A row of the target is found by relation and key.
  type Place = (string, seq<string>)
  type Table = map<Place, Row>
  type Source = map<string, seq<Row>>

  datatype Item = Item(relation: string, row: Row)

  function PlaceOf(item: Item): Place {
    (item.relation, item.row.key)
  }

  // ---------- Row keys ----------

  const UNIT_SEPARATOR: char := '\U{1F}'

  // The debug rendering of values: it tells them apart and escapes control characters.
  ghost predicate Rendering(render: string -> string) {
    && (forall a, b :: render(a) == render(b) ==> a == b)
    && (forall a :: UNIT_SEPARATOR !in render(a))
  }

  function RowKey(key: seq<string>, render: string -> string): string
    requires key != []
  {
    Text.Join(Text.Map(render, key), UNIT_SEPARATOR)
  }

  // The rendered key is as good as the key itself.
  lemma RowKeyInjective(a: seq<string>, b: seq<string>, render: string -> string)
    requires a != [] && b != [] && Rendering(render)
    ensures RowKey(a, render) == RowKey(b, render) <==> a == b
  {
    if RowKey(a, render) == RowKey(b, render) {
      var pa, pb := Text.Map(render, a), Text.Map(render, b);
      Text.JoinInjective(pa, pb, UNIT_SEPARATOR);
      forall i | 0 <= i < |a| ensures a[i] == b[i] {
        assert render(a[i]) == pa[i] == pb[i] == render(b[i]);
      }
    }
  }

  // ---------- Copying as a function ----------

  function Put(t: Table, item: Item): Table {
    if PlaceOf(item) in t then t else t[PlaceOf(item) := item.row]
  }

  function Merge(t: Table, work: seq<Item>): Table {
    if work == [] then t else Put(Merge(t, work[..|work| - 1]), work[|work| - 1])
  }

  function Places(work: seq<Item>): set<Place> {
    set i | 0 <= i < |work| :: PlaceOf(work[i])
  }

  lemma {:induction false} MergeConcat(t: Table, a: seq<Item>, b: seq<Item>)
    ensures Merge(t, a + b) == Merge(Merge(t, a), b)
  {
    if b == [] {
      assert a + b == a;
    } else {
      assert (a + b)[..|a + b| - 1] == a + b[..|b| - 1];
      MergeConcat(t, a, b[..|b| - 1]);
    }
  }

  lemma MergeStep(t: Table, work: seq<Item>, n: nat)
    requires n < |work|
    ensures Merge(t, work[..n + 1]) == Put(Merge(t, work[..n]), work[n])
  {
    assert work[..n + 1][..n] == work[..n];
  }

  // The copy is a keyed union, and no row that was there changes.
  lemma {:induction false} MergeIsUnion(t: Table, work: seq<Item>)
    ensures Merge(t, work).Keys == t.Keys + Places(work)
    ensures forall p :: p in t ==> Merge(t, work)[p] == t[p]
  {
    if work != [] {
      var n := |work| - 1;
      MergeIsUnion(t, work[..n]);
      assert Places(work) == Places(work[..n]) + {PlaceOf(work[n])};
    }
  }

  ghost predicate FirstAt(work: seq<Item>, p: Place, i: nat) {
    i < |work| && PlaceOf(work[i]) == p && forall j :: 0 <= j < i ==> PlaceOf(work[j]) != p
  }

  // A row that is new in the target is the first one the source offers for its key.
  lemma {:induction false} FirstRowWins(t: Table, work: seq<Item>, p: Place) returns (i: nat)
    requires p in Merge(t, work) && p !in t
    ensures FirstAt(work, p, i) && work[i].row == Merge(t, work)[p]
  {
    var n := |work| - 1;
    var before := work[..n];
    if p in Merge(t, before) {
      i := FirstRowWins(t, before, p);
      assert forall j :: 0 <= j < n ==> work[j] == before[j];
    } else {
      i := n;
      MergeIsUnion(t, before);
      assert forall j :: 0 <= j < n ==> before[j] == work[j] && PlaceOf(before[j]) in Places(before);
    }
  }

  // Rows whose keys are all present change nothing.
  lemma {:induction false} NothingToAdd(t: Table, work: seq<Item>)
    requires Places(work) <= t.Keys
    ensures Merge(t, work) == t
  {
    if work != [] {
      assert Places(work[..|work| - 1]) <= Places(work);
      NothingToAdd(t, work[..|work| - 1]);
      assert PlaceOf(work[|work| - 1]) in Places(work);
    }
  }

  // Interrupted after any number of rows and run again in full, the copy ends where one
  // uninterrupted run would have; running it once more adds nothing.
  lemma ResumeReachesTheSameTarget(t: Table, work: seq<Item>, n: nat)
    requires n <= |work|
    ensures Merge(Merge(t, work[..n]), work) == Merge(t, work)
    ensures Merge(Merge(t, work), work) == Merge(t, work)
  {
    var part := Merge(t, work[..n]);
    MergeIsUnion(t, work[..n]);
    assert work == work[..n] + work[n..];
    MergeConcat(part, work[..n], work[n..]);
    assert Places(work[..n]) <= part.Keys;
    NothingToAdd(part, work[..n]);
    MergeConcat(t, work[..n], work[n..]);
    MergeIsUnion(t, work);
    NothingToAdd(Merge(t, work), work);
  }

  // With two sources, an interruption of the first still leads to the same keys.
  lemma ResumeTwoSources(t: Table, first: seq<Item>, second: seq<Item>, n: nat)
    requires n <= |first|
    ensures var interrupted := Merge(Merge(t, first[..n]), second);
            Merge(Merge(interrupted, first), second).Keys == Merge(Merge(t, first), second).Keys
  {
    var a := Merge(t, first[..n]);
    var b := Merge(a, second);
    var c := Merge(b, first);
    MergeIsUnion(t, first[..n]);
    MergeIsUnion(a, second);
    MergeIsUnion(b, first);
    MergeIsUnion(c, second);
    MergeIsUnion(t, first);
    MergeIsUnion(Merge(t, first), second);
    assert Places(first[..n]) <= Places(first) by {
      forall p | p in Places(first[..n]) ensures p in Places(first) {
        var i :| 0 <= i < n && PlaceOf(first[..n][i]) == p;
        assert first[i] == first[..n][i];
      }
    }
  }

  // The first row offered for a key.
  function FirstRow(work: seq<Item>, p: Place): Row
    requires p in Places(work)
  {
    if PlaceOf(work[0]) == p then work[0].row
    else
      InRest(work, p);
      FirstRow(work[1..], p)
  }

  lemma InRest(work: seq<Item>, p: Place)
    requires p in Places(work) && PlaceOf(work[0]) != p
    ensures p in Places(work[1..])
  {
    var i :| 0 <= i < |work| && PlaceOf(work[i]) == p;
    assert work[1..][i - 1] == work[i];
  }

  lemma {:induction false} FirstRowAt(work: seq<Item>, p: Place, i: nat)
    requires FirstAt(work, p, i)
    ensures p in Places(work) && FirstRow(work, p) == work[i].row
  {
    assert PlaceOf(work[i]) in Places(work);
    if i > 0 {
      var rest := work[1..];
      assert forall j :: 0 <= j < |rest| ==> rest[j] == work[j + 1];
      FirstRowAt(rest, p, i - 1);
    }
  }

  // The merge in closed form: an old row, or the first one offered.
  lemma MergeValue(t: Table, work: seq<Item>, p: Place)
    requires p in Merge(t, work)
    ensures p in t ==> Merge(t, work)[p] == t[p]
    ensures p !in t ==> p in Places(work) && Merge(t, work)[p] == FirstRow(work, p)
  {
    MergeIsUnion(t, work);
    if p !in t {
      var i := FirstRowWins(t, work, p);
      FirstRowAt(work, p, i);
    }
  }

  lemma PrefixKeepsFirst(work: seq<Item>, n: nat, p: Place)
    requires n <= |work| && p in Places(work[..n])
    ensures p in Places(work) && FirstRow(work, p) == FirstRow(work[..n], p)
  {
    var part := work[..n];
    var i := FirstIndex(part, p);
    FirstRowAt(part, p, i);
    assert FirstAt(work, p, i) by { assert forall j :: 0 <= j <= i ==> part[j] == work[j]; }
    FirstRowAt(work, p, i);
  }

  lemma {:induction false} FirstIndex(work: seq<Item>, p: Place) returns (i: nat)
    requires p in Places(work)
    ensures FirstAt(work, p, i)
  {
    if PlaceOf(work[0]) == p {
      i := 0;
    } else {
      InRest(work, p);
      var rest := work[1..];
      var j := FirstIndex(rest, p);
      i := j + 1;
      assert forall k :: 0 < k < |work| ==> work[k] == rest[k - 1];
    }
  }

  // The target after the first source was cut short at row `n`, the second was read in full
  // and both were read once more; and the target of an uninterrupted run.
  function Resumed(t: Table, first: seq<Item>, second: seq<Item>, n: nat): Table
    requires n <= |first|
  {
    Merge(Merge(Merge(Merge(t, first[..n]), second), first), second)
  }

  function Uninterrupted(t: Table, first: seq<Item>, second: seq<Item>): Table {
    Merge(Merge(t, first), second)
  }

  // For every key that was still to come when the first source was cut short and that both
  // sources hold, they offer the same first row.
  ghost predicate AgreeOnRest(t: Table, first: seq<Item>, second: seq<Item>, n: nat)
    requires n <= |first|
  {
    forall p :: p in Places(first) && p in Places(second) && p !in t && p !in Places(first[..n]) ==>
      FirstRow(first, p) == FirstRow(second, p)
  }

  lemma UninterruptedValue(t: Table, first: seq<Item>, second: seq<Item>, p: Place)
    requires p in Uninterrupted(t, first, second)
    ensures Uninterrupted(t, first, second)[p] ==
            if p in t then t[p]
            else if p in Places(first) then FirstRow(first, p)
            else if p in Places(second) then FirstRow(second, p) else Uninterrupted(t, first, second)[p]
  {
    MergeIsUnion(t, first);
    MergeValue(Merge(t, first), second, p);
    if p in Merge(t, first) { MergeValue(t, first, p); }
  }

  lemma ResumedValue(t: Table, first: seq<Item>, second: seq<Item>, n: nat, p: Place)
    requires n <= |first| && p in Resumed(t, first, second, n)
    ensures Resumed(t, first, second, n)[p] ==
            if p in t then t[p]
            else if p in Places(first[..n]) then FirstRow(first[..n], p)
            else if p in Places(second) then FirstRow(second, p)
            else if p in Places(first) then FirstRow(first, p) else Resumed(t, first, second, n)[p]
  {
    var a := Merge(t, first[..n]);
    var b := Merge(a, second);
    var c := Merge(b, first);
    MergeIsUnion(t, first[..n]);
    MergeIsUnion(a, second);
    MergeIsUnion(b, first);
    NothingToAdd(c, second);
    MergeValue(b, first, p);
    if p in b { MergeValue(a, second, p); }
    if p in a { MergeValue(t, first[..n], p); }
  }

  // With two sources the rows are those of an uninterrupted run exactly when the sources
  // agree on what the interruption left over.
  lemma SwitchesSourceExactly(t: Table, first: seq<Item>, second: seq<Item>, n: nat)
    requires n <= |first|
    ensures Resumed(t, first, second, n) == Uninterrupted(t, first, second) <==> AgreeOnRest(t, first, second, n)
  {
    var r, u := Resumed(t, first, second, n), Uninterrupted(t, first, second);
    ResumeTwoSources(t, first, second, n);
    MergeIsUnion(t, first);
    MergeIsUnion(Merge(t, first), second);
    assert u.Keys == t.Keys + Places(first) + Places(second);
    forall p | p in u
      ensures r[p] == u[p] <==>
              (p in Places(first) && p in Places(second) && p !in t && p !in Places(first[..n]) ==>
                 FirstRow(first, p) == FirstRow(second, p))
    {
      UninterruptedValue(t, first, second, p);
      ResumedValue(t, first, second, n, p);
      if p in Places(first[..n]) { PrefixKeepsFirst(first, n, p); }
    }
    if AgreeOnRest(t, first, second, n) {
      assert forall p :: p in u ==> r[p] == u[p];
      assert r == u;
    }
    if r == u {
      forall p | p in Places(first) && p in Places(second) && p !in t && p !in Places(first[..n])
        ensures FirstRow(first, p) == FirstRow(second, p)
      {
        assert p in u;
      }
    }
  }

  // But not always to the same rows: a key that both sources hold may then come from the
  // second.
  lemma InterruptionCanSwitchSource()
    ensures var first := [Item("r", Row(["k"], ["one"]))];
            var second := [Item("r", Row(["k"], ["two"]))];
            var interrupted := Merge(Merge(map[], first[..0]), second);
            Merge(Merge(interrupted, first), second) != Merge(Merge(map[], first), second)
  {
    var first := [Item("r", Row(["k"], ["one"]))];
    var second := [Item("r", Row(["k"], ["two"]))];
    var p := ("r", ["k"]);
    assert first[..0] == [] && second[..0] == [];
    var interrupted := Merge(Merge(map[], first[..0]), second);
    assert interrupted == map[p := second[0].row];
    NothingToAdd(interrupted, first);
    NothingToAdd(interrupted, second);
    var whole := Merge(map[], first);
    assert whole == map[p := first[0].row];
    NothingToAdd(whole, second);
  }

  lemma {:induction false} MergeGrows(t: Table, work: seq<Item>, n: nat)
    requires n <= |work|
    ensures |t| <= |Merge(t, work[..n])| <= |Merge(t, work)|
    ensures |Merge(t, work)| - |t| <= |work|
    decreases |work|
  {
    if work != [] {
      var last := |work| - 1;
      if n < |work| {
        assert work[..last][..n] == work[..n];
        MergeGrows(t, work[..last], n);
      } else {
        assert work[..n] == work;
        MergeGrows(t, work[..last], last);
      }
    }
  }

  // ---------- The program ----------

  datatype Fault = Locked | Broken

  datatype Totals = Totals(copied: nat, skipped: nat, missing: nat)

  const NONE := Totals(0, 0, 0)

  function Sum(a: Totals, b: Totals): Totals {
    Totals(a.copied + b.copied, a.skipped + b.skipped, a.missing + b.missing)
  }

  datatype Spec = Spec(name: string, keyColumns: nat)

  // The rows one relation of a source has to offer.
  function Offered(source: Source, spec: Spec): seq<Item> {
    if spec.name !in source then []
    else
      var rows := source[spec.name];
      seq(|rows|, i requires 0 <= i < |rows| => Item(spec.name, rows[i]))
  }

  function Work(source: Source, specs: seq<Spec>): seq<Item> {
    if specs == [] then [] else Work(source, specs[..|specs| - 1]) + Offered(source, specs[|specs| - 1])
  }

  function Missing(source: Source, specs: seq<Spec>): nat {
    if specs == [] then 0
    else Missing(source, specs[..|specs| - 1]) + if specs[|specs| - 1].name in source then 0 else 1
  }

  ghost predicate KeysNonEmpty(t: Table, work: seq<Item>) {
    && (forall p :: p in t ==> p.1 != [])
    && (forall i :: 0 <= i < |work| ==> work[i].row.key != [])
  }

  function KeyTexts(t: Table, name: string, render: string -> string): set<string> {
    set p | p in t && p.0 == name && p.1 != [] :: RowKey(p.1, render)
  }

  // ---------- The rows of a source ----------

  // A row of one of the named relations has this place.
  ghost predicate Offers(source: Source, specs: seq<Spec>, p: Place) {
    && (exists i :: 0 <= i < |specs| && specs[i].name == p.0)
    && p.0 in source && exists j :: HasKey(source[p.0], p.1, j)
  }

  ghost predicate HasKey(rows: seq<Row>, key: seq<string>, j: int) {
    0 <= j < |rows| && rows[j].key == key
  }

  // The row is the first of its relation with that key.
  ghost predicate IsFirstRow(source: Source, p: Place, row: Row) {
    && p.0 in source
    && exists j :: HasKey(source[p.0], p.1, j) && source[p.0][j] == row && forall i | HasKey(source[p.0], p.1, i) :: j <= i
  }

  // Old rows stay, and each new one is the first of its relation with its key.
  ghost predicate Extends(source: Source, specs: seq<Spec>, before: Table, after: Table) {
    && (forall p :: p in before ==> p in after && after[p] == before[p])
    && (forall p :: p in after && p !in before ==> Offers(source, specs, p) && IsFirstRow(source, p, after[p]))
  }

  function RowCount(source: Source, specs: seq<Spec>): nat {
    if specs == [] then 0
    else
      var name := specs[|specs| - 1].name;
      RowCount(source, specs[..|specs| - 1]) + if name in source then |source[name]| else 0
  }

  function Absent(source: Source, specs: seq<Spec>): set<nat> {
    set i: nat | i < |specs| && specs[i].name !in source
  }

  // Every row is offered once for each time its relation is named.
  lemma {:induction false} WorkCounts(source: Source, specs: seq<Spec>)
    ensures |Work(source, specs)| == RowCount(source, specs)
    ensures Missing(source, specs) == |Absent(source, specs)|
  {
    if specs == [] {
      assert Absent(source, specs) == {};
    } else {
      var n := |specs| - 1;
      WorkCounts(source, specs[..n]);
      assert Absent(source, specs) == Absent(source, specs[..n]) + if specs[n].name in source then {} else {n};
    }
  }

  lemma OfferedAt(source: Source, spec: Spec, p: Place)
    ensures p in Places(Offered(source, spec)) <==>
            spec.name == p.0 && p.0 in source && exists j :: HasKey(source[p.0], p.1, j)
  {
    if p in Places(Offered(source, spec)) {
      var j :| 0 <= j < |Offered(source, spec)| && PlaceOf(Offered(source, spec)[j]) == p;
      assert HasKey(source[p.0], p.1, j);
    }
    if spec.name == p.0 && p.0 in source && exists j :: HasKey(source[p.0], p.1, j) {
      var j :| HasKey(source[p.0], p.1, j);
      assert PlaceOf(Offered(source, spec)[j]) == p;
    }
  }

  lemma PlacesOfTwo(a: seq<Item>, b: seq<Item>)
    ensures Places(a + b) == Places(a) + Places(b)
  {
    forall p | p in Places(b) ensures p in Places(a + b) {
      var i :| 0 <= i < |b| && PlaceOf(b[i]) == p;
      assert (a + b)[|a| + i] == b[i];
    }
    forall p | p in Places(a) ensures p in Places(a + b) {
      var i :| 0 <= i < |a| && PlaceOf(a[i]) == p;
      assert (a + b)[i] == a[i];
    }
  }

  // What the work holds: the rows of the named relations, no more and no less.
  lemma {:induction false} WorkOffers(source: Source, specs: seq<Spec>, p: Place)
    ensures p in Places(Work(source, specs)) <==> Offers(source, specs, p)
  {
    if specs != [] {
      var n := |specs| - 1;
      var before := specs[..n];
      WorkOffers(source, before, p);
      OfferedAt(source, specs[n], p);
      PlacesOfTwo(Work(source, before), Offered(source, specs[n]));
      assert forall i :: 0 <= i < n ==> before[i] == specs[i];
    }
  }

  lemma {:induction false} FirstOfWork(source: Source, specs: seq<Spec>, p: Place, k: nat)
    requires FirstAt(Work(source, specs), p, k)
    ensures IsFirstRow(source, p, Work(source, specs)[k].row)
  {
    var n := |specs| - 1;
    var before, offered := Work(source, specs[..n]), Offered(source, specs[n]);
    if k < |before| {
      assert forall i :: 0 <= i <= k ==> before[i] == (before + offered)[i];
      FirstOfWork(source, specs[..n], p, k);
    } else {
      var j := k - |before|;
      assert (before + offered)[k] == offered[j];
      assert HasKey(source[p.0], p.1, j);
      forall i | HasKey(source[p.0], p.1, i) ensures j <= i {
        assert (before + offered)[|before| + i] == offered[i] && PlaceOf(offered[i]) == p;
      }
    }
  }

  lemma WorkIsKeyed(source: Source, specs: seq<Spec>, t: Table)
    requires forall p :: p in t || Offers(source, specs, p) ==> p.1 != []
    ensures KeysNonEmpty(t, Work(source, specs))
  {
    var work := Work(source, specs);
    forall i | 0 <= i < |work| ensures work[i].row.key != [] {
      assert PlaceOf(work[i]) in Places(work);
      WorkOffers(source, specs, PlaceOf(work[i]));
    }
  }

  // The target after some first part of the work, and after all of it.
  lemma Reaches(source: Source, specs: seq<Spec>, t: Table, done: nat)
    requires done <= |Work(source, specs)|
    ensures Extends(source, specs, t, Merge(t, Work(source, specs)[..done]))
    ensures done == |Work(source, specs)| ==>
              forall p :: Offers(source, specs, p) ==> p in Merge(t, Work(source, specs)[..done])
  {
    var work := Work(source, specs);
    var part := work[..done];
    var after := Merge(t, part);
    MergeIsUnion(t, part);
    forall p | p in after && p !in t ensures Offers(source, specs, p) && IsFirstRow(source, p, after[p]) {
      var k := FirstRowWins(t, part, p);
      assert forall i :: 0 <= i <= k ==> part[i] == work[i];
      assert PlaceOf(work[k]) in Places(work);
      WorkOffers(source, specs, p);
      FirstOfWork(source, specs, p, k);
    }
    if done == |work| {
      assert part == work;
      forall p | Offers(source, specs, p) ensures p in after {
        WorkOffers(source, specs, p);
      }
    }
  }

  class Target {
    var rows: Table
    // How many database operations succeed before one meets the fault.
    var operations: nat
    const fault: Fault

    constructor (rows: Table, operations: nat, fault: Fault)
      ensures this.rows == rows && this.operations == operations && this.fault == fault
    {
      this.rows, this.operations, this.fault := rows, operations, fault;
    }

    method Operation() returns (ok: bool)
      modifies this`operations
      ensures ok <==> old(operations) > 0
    {
      ok := operations > 0;
      if ok {
        operations := operations - 1;
      }
    }
  }

  lemma KeyTextTells(t: Table, item: Item, render: string -> string)
    requires Rendering(render) && item.row.key != [] && forall p :: p in t ==> p.1 != []
    ensures RowKey(item.row.key, render) in KeyTexts(t, item.relation, render) <==> PlaceOf(item) in t
    ensures KeyTexts(Put(t, item), item.relation, render)
         == KeyTexts(t, item.relation, render) + {RowKey(item.row.key, render)}
  {
    var text := RowKey(item.row.key, render);
    forall p | p in t && p.0 == item.relation ensures RowKey(p.1, render) == text <==> p == PlaceOf(item) {
      RowKeyInjective(p.1, item.row.key, render);
    }
    var place := PlaceOf(item);
    assert place.0 == item.relation && place.1 == item.row.key;
    if PlaceOf(item) in t {
      assert text in KeyTexts(t, item.relation, render);
    } else {
      var after := Put(t, item);
      forall k | k in KeyTexts(after, item.relation, render)
        ensures k in KeyTexts(t, item.relation, render) + {text}
      {
        var p :| p in after && p.0 == item.relation && p.1 != [] && RowKey(p.1, render) == k;
        assert p == place || p in t;
      }
      forall k | k in KeyTexts(t, item.relation, render) ensures k in KeyTexts(after, item.relation, render) {
        var p :| p in t && p.0 == item.relation && p.1 != [] && RowKey(p.1, render) == k;
        assert p in after;
      }
      assert place in after;
    }
  }

  datatype RowOutcome = Skipped | Copied | Interrupted

  // The body of the row loop.
  method CopyRow(target: Target, name: string, row: Row, existing: set<string>, render: string -> string)
    returns (outcome: RowOutcome, after: set<string>)
    requires Rendering(render) && row.key != [] && forall p :: p in target.rows ==> p.1 != []
    requires existing == KeyTexts(target.rows, name, render)
    modifies target
    ensures outcome.Interrupted? ==> target.rows == old(target.rows)
    ensures !outcome.Interrupted? ==>
              && target.rows == Put(old(target.rows), Item(name, row)) && after == KeyTexts(target.rows, name, render)
              && |target.rows| == |old(target.rows)| + (if outcome.Copied? then 1 else 0)
              && forall p :: p in target.rows ==> p.1 != []
  {
    KeyTextTells(target.rows, Item(name, row), render);
    var key := RowKey(row.key, render);
    after := existing + {key};
    if key in existing {
      return Skipped, after;
    }
    var ok := target.Operation();
    if !ok {
      return Interrupted, after;
    }
    target.rows := target.rows[(name, row.key) := row];
    outcome := Copied;
  }

  // The row loop. `done` is how many rows were dealt with.
  method CopyRows(target: Target, name: string, rows: seq<Row>, render: string -> string, ghost work: seq<Item>)
    returns (r: Result<Totals, Fault>, ghost done: nat)
    requires Rendering(render) && KeysNonEmpty(target.rows, work)
    requires |work| == |rows| && forall i :: 0 <= i < |rows| ==> work[i] == Item(name, rows[i])
    modifies target
    ensures done <= |work| && target.rows == Merge(old(target.rows), work[..done])
    ensures r.Ok? ==>
              && done == |work| && r.value.missing == 0
              && r.value.copied == |target.rows| - |old(target.rows)|
              && r.value.copied + r.value.skipped == done
    ensures r.Err? ==> r.error == target.fault
  {
    ghost var before := target.rows;
    var existing := KeyTexts(target.rows, name, render);
    var copied, skipped := 0, 0;
    done := 0;
    assert work[..0] == [];
    for i := 0 to |rows|
      invariant done == i && target.rows == Merge(before, work[..i])
      invariant forall p :: p in target.rows ==> p.1 != []
      invariant existing == KeyTexts(target.rows, name, render)
      invariant copied == |target.rows| - |before| && copied + skipped == i
    {
      MergeStep(before, work, i);
      assert work[i].row.key != [];
      var outcome, after := CopyRow(target, name, rows[i], existing, render);
      if outcome.Interrupted? {
        return Err(target.fault), done;
      }
      existing := after;
      if outcome.Copied? {
        copied := copied + 1;
      } else {
        skipped := skipped + 1;
      }
      done := done + 1;
    }
    assert work[..|work|] == work;
    return Ok(Totals(copied, skipped, 0)), done;
  }

  method CopyRelation(source: Source, target: Target, spec: Spec, render: string -> string, ghost offered: seq<Item>)
    returns (r: Result<Totals, Fault>, ghost done: nat)
    requires offered == Offered(source, spec) && Rendering(render) && KeysNonEmpty(target.rows, offered)
    modifies target
    ensures done <= |offered| && target.rows == Merge(old(target.rows), offered[..done])
    ensures r.Ok? ==>
              && done == |offered|
              && r.value.copied == |target.rows| - |old(target.rows)|
              && r.value.copied + r.value.skipped == done
              && r.value.missing == (if spec.name in source then 0 else 1)
              && done == (if spec.name in source then |source[spec.name]| else 0)
    ensures r.Err? ==> r.error == target.fault
  {
    assert offered[..0] == [];
    var ok := target.Operation();
    if !ok {
      return Err(target.fault), 0;
    }
    if spec.name !in source {
      return Ok(Totals(0, 0, 1)), 0;
    }
    var rows := source[spec.name];
    if rows == [] {
      return Ok(NONE), 0;
    }
    ok := target.Operation();
    if !ok {
      return Err(target.fault), 0;
    }
    r, done := CopyRows(target, spec.name, rows, render, offered);
  }

  datatype Ended = Finished | Stopped | Failed

  lemma {:induction false} WorkPrefix(source: Source, specs: seq<Spec>, n: nat)
    requires n <= |specs|
    ensures Work(source, specs[..n]) <= Work(source, specs)
    decreases |specs|
  {
    if n < |specs| {
      assert specs[..|specs| - 1][..n] == specs[..n];
      WorkPrefix(source, specs[..|specs| - 1], n);
    } else {
      assert specs[..n] == specs;
    }
  }

  // One more relation.
  lemma WorkStep(source: Source, specs: seq<Spec>, n: nat)
    requires n < |specs|
    ensures Work(source, specs[..n + 1]) == Work(source, specs[..n]) + Offered(source, specs[n])
    ensures Missing(source, specs[..n + 1]) == Missing(source, specs[..n]) + if specs[n].name in source then 0 else 1
    ensures Work(source, specs[..n + 1]) <= Work(source, specs)
  {
    assert specs[..n + 1][..n] == specs[..n];
    WorkPrefix(source, specs, n + 1);
  }

  // What is known when the rows of a further relation were dealt with up to number `more`.
  lemma Advance(
    t: Table, all: seq<Item>, finished: seq<Item>, offered: seq<Item>, more: nat, before: Table, rows: Table)
    returns (done: nat)
    requires finished + offered <= all && more <= |offered|
    requires before == Merge(t, finished) && rows == Merge(before, offered[..more])
    ensures done == |finished| + more <= |all| && rows == Merge(t, all[..done])
    ensures |t| <= |before| <= |rows|
    ensures more == |offered| ==> rows == Merge(t, finished + offered)
  {
    done := |finished| + more;
    assert all[..done] == finished + offered[..more];
    MergeConcat(t, finished, offered[..more]);
    Larger(t, finished);
    Larger(before, offered[..more]);
    if more == |offered| { assert offered[..more] == offered; }
  }

  lemma Larger(t: Table, work: seq<Item>)
    ensures |t| <= |Merge(t, work)|
  {
    assert work[..|work|] == work;
    MergeGrows(t, work, |work|);
  }

  // The keys of what is merged and offered are keys of the source or of the target before.
  lemma Ready(t: Table, all: seq<Item>, finished: seq<Item>, offered: seq<Item>)
    requires finished + offered <= all && KeysNonEmpty(t, all)
    ensures KeysNonEmpty(Merge(t, finished), offered)
  {
    forall i | 0 <= i < |offered| ensures offered[i].row.key != [] {
      assert offered[i] == (finished + offered)[|finished| + i] == all[|finished| + i];
    }
    MergeIsUnion(t, finished);
    forall p | p in Places(finished) ensures p.1 != [] {
      var i :| 0 <= i < |finished| && PlaceOf(finished[i]) == p;
      assert finished[i] == (finished + offered)[i] == all[i];
    }
  }

  // The body of the relation loop, seen from the whole work `all` of the source of which
  // `finished` is done and `offered` comes next.
  method MigrateRelation(
    source: Source, target: Target, spec: Spec, render: string -> string,
    ghost t: Table, ghost all: seq<Item>, ghost finished: seq<Item>, ghost offered: seq<Item>)
    returns (r: Result<Totals, Fault>, ghost done: nat)
    requires offered == Offered(source, spec) && Rendering(render)
    requires KeysNonEmpty(t, all) && finished + offered <= all && target.rows == Merge(t, finished)
    modifies target
    ensures done <= |all| && target.rows == Merge(t, all[..done])
    ensures |t| <= |old(target.rows)| <= |target.rows|
    ensures r.Ok? ==>
              && done == |finished| + |offered| && target.rows == Merge(t, finished + offered)
              && r.value.copied == |target.rows| - |old(target.rows)|
              && r.value.copied + r.value.skipped == |offered|
              && r.value.missing == (if spec.name in source then 0 else 1)
    ensures r.Err? ==> r.error == target.fault
  {
    ghost var before := target.rows;
    Ready(t, all, finished, offered);
    ghost var more;
    r, more := CopyRelation(source, target, spec, render, offered);
    done := Advance(t, all, finished, offered, more, before, target.rows);
  }

  // The two loops over the relations, with what they do to the target as a merge.
  method MigrateRelations(source: Source, specs: seq<Spec>, target: Target, total: Totals, render: string -> string)
    returns (after: Totals, ended: Ended, ghost done: nat, ghost relations: nat)
    requires Rendering(render) && KeysNonEmpty(target.rows, Work(source, specs))
    modifies target
    ensures relations <= |specs| && done <= |Work(source, specs)|
    ensures target.rows == Merge(old(target.rows), Work(source, specs)[..done])
    ensures ended != Failed ==> Reported(source, specs[..relations], total, after)
    ensures ended == Finished ==>
              && relations == |specs| && done == |Work(source, specs)|
              && after.copied == total.copied + |target.rows| - |old(target.rows)|
    ensures total.copied <= after.copied <= total.copied + |target.rows| - |old(target.rows)|
    ensures ended == Stopped ==> target.fault == Locked
    ensures ended == Failed ==> target.fault == Broken && after == total
  {
    ghost var t := target.rows;
    ghost var work := Work(source, specs);
    after, done, relations := total, 0, 0;
    assert work[..0] == [] && specs[..0] == [];
    var ok := target.Operation();
    if !ok {
      ended := if target.fault == Locked then Stopped else Failed;
      return;
    }
    var report := NONE;
    for n := 0 to |specs|
      invariant relations == n && after == total
      invariant target.rows == Merge(t, Work(source, specs[..n]))
      invariant report.copied == |target.rows| - |t|
      invariant Reported(source, specs[..n], NONE, report)
    {
      WorkStep(source, specs, n);
      var outcome;
      outcome, done := MigrateRelation(source, target, specs[n], render, t, work,
                                       Work(source, specs[..n]), Offered(source, specs[n]));
      if outcome.Err? {
        if outcome.error == Locked {
          after, ended := Sum(total, report), Stopped;
        } else {
          ended := Failed;
        }
        return;
      }
      report := Sum(report, outcome.value);
      relations := relations + 1;
    }
    assert specs[..|specs|] == specs;
    done := |work|;
    assert work[..done] == work;
    after, ended := Sum(total, report), Finished;
  }

  // What the first relations were worth: each of their rows counted once, and the missing.
  ghost predicate Reported(source: Source, specs: seq<Spec>, before: Totals, after: Totals) {
    && after.copied + after.skipped == before.copied + before.skipped + |Work(source, specs)|
    && after.missing == before.missing + Missing(source, specs)
  }

  // A lock stops the source but not the program, which reports what the finished relations
  // copied. When nothing stops it, every row of every named relation is in the target or was
  // passed over for a row of its key, and every row is counted once.
  method MigrateSource(source: Source, specs: seq<Spec>, target: Target, total: Totals, render: string -> string)
    returns (after: Totals, ended: Ended, ghost relations: nat)
    requires Rendering(render) && forall p :: p in target.rows || Offers(source, specs, p) ==> p.1 != []
    modifies target
    ensures Extends(source, specs, old(target.rows), target.rows)
    ensures ended == Finished ==>
              && (forall p :: Offers(source, specs, p) ==> p in target.rows)
              && relations == |specs| && after.copied == total.copied + |target.rows| - |old(target.rows)|
    ensures relations <= |specs|
    ensures ended != Failed ==>
              && after.copied + after.skipped == total.copied + total.skipped + RowCount(source, specs[..relations])
              && after.missing == total.missing + |Absent(source, specs[..relations])|
    ensures total.copied <= after.copied <= total.copied + |target.rows| - |old(target.rows)|
    ensures ended == Stopped ==> target.fault == Locked
    ensures ended == Failed ==> target.fault == Broken && after == total
  {
    WorkIsKeyed(source, specs, target.rows);
    ghost var before := target.rows;
    ghost var done;
    after, ended, done, relations := MigrateRelations(source, specs, target, total, render);
    WorkCounts(source, specs[..relations]);
    assert specs[..|specs|] == specs;
    Reaches(source, specs, before, done);
  }
}
