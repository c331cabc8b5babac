/**
 The build script's scan for environment variable names (build.rs, `collect_names`), over
 the bytes of a source text.
 */
module NameScan {
  import opened Wrappers

  const PREFIX := "ARCHON_"

  predicate IsNameByte(c: char) {
    'A' <= c <= 'Z' || '0' <= c <= '9' || c == '_'
  }

  predicate OccursAt(text: string, p: nat) {
    p + 7 <= |text| && text[p..p + 7] == "ARCHON_"
  }

  // The end of the run of name bytes that goes on at `i`.
  function RunEnd(text: string, i: nat): (e: nat)
    requires i <= |text|
    ensures i <= e <= |text|
    ensures forall j :: i <= j < e ==> IsNameByte(text[j])
    ensures e < |text| ==> !IsNameByte(text[e])
    decreases |text| - i
  {
    if i < |text| && IsNameByte(text[i]) then RunEnd(text, i + 1) else i
  }

  // The first occurrence of the prefix at or after `from`.
  function Find(text: string, from: nat): (found: Option<nat>)
    ensures found.Some? ==> from <= found.value && OccursAt(text, found.value)
                            && forall q :: from <= q < found.value ==> !OccursAt(text, q)
    ensures found.None? ==> forall q :: from <= q ==> !OccursAt(text, q)
    decreases |text| - from
  {
    if from >= |text| then None
    else if OccursAt(text, from) then Some(from)
    else Find(text, from + 1)
  }

  // ---------- What should be found ----------

  // An occurrence with no other one before it in the same run of name bytes.
  ghost predicate LeftmostInRun(text: string, p: nat) {
    OccursAt(text, p) && forall q :: 0 <= q < p && OccursAt(text, q) ==> RunEnd(text, q) < p
  }

  // One name for every run that holds the prefix: from its leftmost occurrence to the end
  // of the run, unless the run ends with the prefix.
  ghost function NamesBefore(text: string, limit: nat): set<string> {
    set p | 0 <= p < limit && LeftmostInRun(text, p) && RunEnd(text, p) > p + |PREFIX| :: text[p..RunEnd(text, p)]
  }

  ghost function Names(text: string): set<string> {
    NamesBefore(text, |text|)
  }

  lemma {:induction false} RunEndMeets(text: string, i: nat, j: nat)
    requires i <= j <= |text| && forall k :: i <= k < j ==> IsNameByte(text[k])
    ensures RunEnd(text, i) == RunEnd(text, j)
    decreases j - i
  {
    if i < j { RunEndMeets(text, i + 1, j); }
  }

  lemma PrefixIsName(text: string, p: nat)
    requires OccursAt(text, p)
    ensures forall k :: p <= k < p + |PREFIX| ==> IsNameByte(text[k])
    ensures RunEnd(text, p) >= p + |PREFIX|
  {
    forall k | p <= k < p + |PREFIX| ensures IsNameByte(text[k]) {
      assert text[k] == text[p..p + |PREFIX|][k - p] == PREFIX[k - p];
    }
    RunEndMeets(text, p, p + |PREFIX|);
  }

  // An occurrence never reaches over the end of a run, so nothing inside a run that was
  // handled is the leftmost of its run.
  lemma InsideIsNotLeftmost(text: string, p: nat, q: nat)
    requires OccursAt(text, p) && p < q < RunEnd(text, p)
    ensures !LeftmostInRun(text, q)
    ensures OccursAt(text, q) ==> RunEnd(text, q) == RunEnd(text, p)
  {
    RunEndMeets(text, p, q);
  }

  // Every run that holds the prefix has exactly one leftmost occurrence, so it gives at most
  // one name.
  lemma {:induction false} OneLeftmostPerRun(text: string, q: nat) returns (p: nat)
    requires OccursAt(text, q)
    ensures p <= q && LeftmostInRun(text, p) && RunEnd(text, p) == RunEnd(text, q)
    ensures forall r :: LeftmostInRun(text, r) && RunEnd(text, r) == RunEnd(text, q) ==> r == p
  {
    PrefixIsName(text, q);
    if LeftmostInRun(text, q) {
      p := q;
    } else {
      var earlier: nat :| earlier < q && OccursAt(text, earlier) && RunEnd(text, earlier) >= q;
      if RunEnd(text, earlier) > q {
        RunEndMeets(text, earlier, q);
      }
      p := OneLeftmostPerRun(text, earlier);
    }
    forall r | LeftmostInRun(text, r) && RunEnd(text, r) == RunEnd(text, q) ensures r == p {
      PrefixIsName(text, r);
      PrefixIsName(text, p);
    }
  }

  ghost predicate Settled(text: string, index: nat) {
    forall q :: 0 <= q < index && OccursAt(text, q) ==> RunEnd(text, q) <= index
  }

  lemma NextIsLeftmost(text: string, index: nat, p: nat)
    requires Settled(text, index) && index <= p && OccursAt(text, p)
    requires forall q :: index <= q < p ==> !OccursAt(text, q)
    ensures LeftmostInRun(text, p)
  {
    PrefixIsName(text, p);
    forall q | 0 <= q < p && OccursAt(text, q) ensures RunEnd(text, q) < p {
      assert IsNameByte(text[p]);
      assert RunEnd(text, q) != p;
    }
  }

  // From one index to the next exactly the name of one run is added.
  lemma OneRunFurther(text: string, index: nat, start: nat, end: nat)
    requires Settled(text, index) && index <= start && OccursAt(text, start) && end == RunEnd(text, start)
    requires forall q :: index <= q < start ==> !OccursAt(text, q)
    ensures NamesBefore(text, end) ==
            NamesBefore(text, index) + if end > start + |PREFIX| then {text[start..end]} else {}
    ensures Settled(text, end)
  {
    NextIsLeftmost(text, index, start);
    PrefixIsName(text, start);
    forall q | start < q < end
      ensures !LeftmostInRun(text, q) && (OccursAt(text, q) ==> RunEnd(text, q) == end)
    {
      InsideIsNotLeftmost(text, start, q);
    }
  }

  lemma NothingAfter(text: string, index: nat)
    requires index <= |text| && forall q :: index <= q ==> !OccursAt(text, q)
    ensures NamesBefore(text, index) == Names(text)
  {
    forall p | index <= p < |text| ensures !LeftmostInRun(text, p) {}
  }

  // ---------- In characters ----------

  // The bytes a name is made of, one by one.
  lemma NameBytesExactly(c: char)
    ensures IsNameByte(c) <==> c in "ABCDEFGHIJKLMNOPQRSTUVWXYZ0123456789_"
  {}

  // The text between `p` and `e` begins with the prefix, goes on beyond it, is all name
  // bytes, cannot be prolonged, and no occurrence comes before it in its run.
  ghost predicate IsFoundAt(text: string, p: nat, e: nat) {
    && p + 7 < e <= |text| && text[p..p + 7] == "ARCHON_"
    && (forall j :: p <= j < e ==> IsNameByte(text[j]))
    && (e == |text| || !IsNameByte(text[e]))
    && forall q :: 0 <= q < p && OccursAt(text, q) ==> exists j :: q <= j < p && !IsNameByte(text[j])
  }

  lemma ReachesOrNot(text: string, q: nat, p: nat)
    requires q < p < |text| && IsNameByte(text[p])
    ensures RunEnd(text, q) < p <==> exists j :: q <= j < p && !IsNameByte(text[j])
  {
    if RunEnd(text, q) < p {
      assert !IsNameByte(text[RunEnd(text, q)]);
    }
  }

  lemma FoundExactly(text: string, p: nat, e: nat)
    ensures IsFoundAt(text, p, e) <==> p < |text| && LeftmostInRun(text, p) && e == RunEnd(text, p) > p + 7
  {
    if IsFoundAt(text, p, e) {
      RunEndMeets(text, p, e);
      forall q | 0 <= q < p && OccursAt(text, q) ensures RunEnd(text, q) < p { ReachesOrNot(text, q, p); }
    }
    if p < |text| && LeftmostInRun(text, p) && e == RunEnd(text, p) > p + 7 {
      forall q | 0 <= q < p && OccursAt(text, q) ensures exists j :: q <= j < p && !IsNameByte(text[j]) {
        ReachesOrNot(text, q, p);
      }
    }
  }

  // The names, in characters.
  lemma NamesExactly(text: string, name: string)
    ensures name in Names(text) <==> exists p: nat, e: nat :: IsFoundAt(text, p, e) && name == text[p..e]
  {
    if name in Names(text) {
      var p: nat :| p < |text| && LeftmostInRun(text, p) && RunEnd(text, p) > p + |PREFIX| && name == text[p..RunEnd(text, p)];
      FoundExactly(text, p, RunEnd(text, p));
    }
    forall p: nat, e: nat | IsFoundAt(text, p, e) ensures text[p..e] in Names(text) {
      FoundExactly(text, p, e);
    }
  }

  // The inner loop.
  method EndOfName(text: string, start: nat) returns (end: nat)
    requires OccursAt(text, start)
    ensures end == RunEnd(text, start) && end >= start + |PREFIX|
  {
    PrefixIsName(text, start);
    RunEndMeets(text, start, start + |PREFIX|);
    end := start + |PREFIX|;
    while end < |text| && IsNameByte(text[end])
      invariant start + |PREFIX| <= end <= |text|
      invariant RunEnd(text, end) == RunEnd(text, start)
    {
      end := end + 1;
    }
  }

  method CollectNames(text: string, names: set<string>) returns (collected: set<string>)
    ensures collected == names + Names(text)
    ensures forall name :: name in collected <==>
              name in names || exists p: nat, e: nat :: IsFoundAt(text, p, e) && name == text[p..e]
  {
    collected := names;
    var index := 0;
    var found := Find(text, index);
    while found.Some?
      invariant index <= |text| && found == Find(text, index)
      invariant Settled(text, index)
      invariant collected == names + NamesBefore(text, index)
      decreases |text| - index
    {
      var start := found.value;
      var end := EndOfName(text, start);
      OneRunFurther(text, index, start, end);
      if end > start + |PREFIX| {
        collected := collected + {text[start..end]};
      }
      index := if end > start + 1 then end else start + 1;
      found := Find(text, index);
    }
    NothingAfter(text, index);
    forall name ensures name in Names(text) <==> exists p: nat, e: nat :: IsFoundAt(text, p, e) && name == text[p..e] {
      NamesExactly(text, name);
    }
  }
}
