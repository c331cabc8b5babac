/**
 The plugin hook merger (plugins/merge-hooks.js): snippets of hook entries are appended to a
 settings file, event by event, unless their commands are already there.
 */
module HookMerge {
  import opened Wrappers

  // An entry's commands as written, with the rest of the entry in `body`.
  datatype Entry = Entry(body: string, hooks: seq<Option<string>>)

  type Hooks = map<string, seq<Entry>>

  // One event of a snippet and its entries.
  datatype Section = Section(event: string, entries: seq<Entry>)

  type Snippet = seq<Section>

  // The commands that are present and not empty.
  function CommandsOf(e: Entry): (commands: set<string>)
    ensures forall c :: c in commands <==> c != "" && Some(c) in e.hooks
  {
    var named := set i | 0 <= i < |e.hooks| && e.hooks[i].Some? :: e.hooks[i].value;
    named - {""}
  }

  function CommandsIn(entries: seq<Entry>): set<string> {
    if entries == [] then {} else CommandsIn(entries[..|entries| - 1]) + CommandsOf(entries[|entries| - 1])
  }

  function Added(list: seq<Entry>, e: Entry): seq<Entry> {
    if CommandsOf(e) != {} && CommandsOf(e) <= CommandsIn(list) then list else list + [e]
  }

  function AddedAll(list: seq<Entry>, entries: seq<Entry>): seq<Entry>
    decreases |entries|
  {
    if entries == [] then list else AddedAll(Added(list, entries[0]), entries[1..])
  }

  function ListOf(hooks: Hooks, event: string): seq<Entry> {
    if event in hooks then hooks[event] else []
  }

  function Merged(hooks: Hooks, section: Section): Hooks {
    hooks[section.event := AddedAll(ListOf(hooks, section.event), section.entries)]
  }

  function MergedAll(hooks: Hooks, snippet: Snippet): Hooks
    decreases |snippet|
  {
    if snippet == [] then hooks else MergedAll(Merged(hooks, snippet[0]), snippet[1..])
  }

  function Growth(hooks: Hooks, snippet: Snippet): int
    decreases |snippet|
  {
    if snippet == [] then 0
    else
      var list := ListOf(hooks, snippet[0].event);
      |AddedAll(list, snippet[0].entries)| - |list| + Growth(Merged(hooks, snippet[0]), snippet[1..])
  }

  lemma CommandsOfMore(list: seq<Entry>, e: Entry)
    ensures CommandsIn(list + [e]) == CommandsIn(list) + CommandsOf(e)
  {
    assert (list + [e])[..|list|] == list;
  }

  lemma SetAgain<K, V>(m: map<K, V>, k: K, a: V, b: V)
    ensures m[k := a][k := b] == m[k := b]
  {}

  lemma SetSame<K, V>(m: map<K, V>, n: map<K, V>, k: K, a: V, b: V)
    requires n == m || n == m[k := a]
    ensures n[k := b] == m[k := b]
  {}

  class Settings {
    var hooks: Hooks

    constructor (hooks: Hooks)
      ensures this.hooks == hooks
    {
      this.hooks := hooks;
    }

    // The body of the inner loop.
    method MergeEntry(event: string, entry: Entry, existing: set<string>) returns (after: set<string>, pushed: bool)
      requires event in hooks && existing == CommandsIn(hooks[event])
      modifies this
      ensures hooks == old(hooks)[event := Added(old(hooks)[event], entry)] && after == CommandsIn(hooks[event])
      ensures |hooks[event]| == |old(hooks)[event]| + if pushed then 1 else 0
    {
      var commands := CommandsOf(entry);
      if commands != {} && commands <= existing {
        return existing, false;
      }
      CommandsOfMore(hooks[event], entry);
      hooks := hooks[event := hooks[event] + [entry]];
      return existing + commands, true;
    }

    method MergeSection(section: Section) returns (added: int)
      modifies this
      ensures hooks == Merged(old(hooks), section)
      ensures added == |hooks[section.event]| - |ListOf(old(hooks), section.event)|
    {
      var event, entries := section.event, section.entries;
      if event !in hooks {
        hooks := hooks[event := []];
      }
      ghost var before := hooks;
      ghost var list := before[event];
      ghost var now := list;
      var existing := CommandsIn(hooks[event]);
      added := 0;
      for i := 0 to |entries|
        invariant hooks == before[event := now] && existing == CommandsIn(now)
        invariant AddedAll(now, entries[i..]) == AddedAll(list, entries)
        invariant added == |now| - |list|
      {
        var entry := entries[i];
        assert entries[i..][0] == entry && entries[i..][1..] == entries[i + 1..];
        SetAgain(before, event, now, Added(now, entry));
        var pushed;
        existing, pushed := MergeEntry(event, entry, existing);
        now := Added(now, entry);
        if pushed {
          added := added + 1;
        }
      }
      assert entries[|entries|..] == [];
      SetSame(old(hooks), before, event, list, now);
    }

    method Merge(snippet: Snippet) returns (added: int)
      modifies this
      ensures hooks == MergedAll(old(hooks), snippet) && added == Growth(old(hooks), snippet)
    {
      added := 0;
      for i := 0 to |snippet|
        invariant MergedAll(hooks, snippet[i..]) == MergedAll(old(hooks), snippet)
        invariant added + Growth(hooks, snippet[i..]) == Growth(old(hooks), snippet)
      {
        assert snippet[i..][1..] == snippet[i + 1..];
        var more := MergeSection(snippet[i]);
        added := added + more;
      }
    }
  }

  // ---------- One event ----------

  // The entries that were there stay first and in order, and every command that was merged
  // is present.
  lemma {:induction false} AddedKeeps(list: seq<Entry>, entries: seq<Entry>)
    ensures list <= AddedAll(list, entries)
    ensures CommandsIn(list) <= CommandsIn(AddedAll(list, entries))
    ensures forall e :: e in entries ==> CommandsOf(e) <= CommandsIn(AddedAll(list, entries))
    decreases |entries|
  {
    if entries != [] {
      CommandsOfMore(list, entries[0]);
      AddedKeeps(Added(list, entries[0]), entries[1..]);
    }
  }

  predicate AllCarryCommand(entries: seq<Entry>) {
    forall e :: e in entries ==> CommandsOf(e) != {}
  }

  // When all commands are present, merging adds nothing exactly if every entry has one.
  lemma {:induction false} PresentIsAbsorbed(list: seq<Entry>, entries: seq<Entry>)
    requires forall e :: e in entries ==> CommandsOf(e) <= CommandsIn(list)
    ensures AddedAll(list, entries) == list <==> AllCarryCommand(entries)
    decreases |entries|
  {
    if entries != [] {
      if CommandsOf(entries[0]) != {} {
        PresentIsAbsorbed(list, entries[1..]);
      } else {
        AddedKeeps(list + [entries[0]], entries[1..]);
        assert |AddedAll(list, entries)| > |list|;
      }
    }
  }

  // ---------- Whole files ----------

  ghost predicate Covers(hooks: Hooks, section: Section) {
    && section.event in hooks
    && forall e :: e in section.entries ==> CommandsOf(e) <= CommandsIn(hooks[section.event])
  }

  ghost predicate Grows(a: Hooks, b: Hooks) {
    forall event :: event in a ==>
      event in b && a[event] <= b[event] && CommandsIn(a[event]) <= CommandsIn(b[event])
  }

  lemma MergedGrows(hooks: Hooks, section: Section)
    ensures Grows(hooks, Merged(hooks, section)) && Covers(Merged(hooks, section), section)
  {
    AddedKeeps(ListOf(hooks, section.event), section.entries);
  }

  lemma GrowsTransitive(a: Hooks, b: Hooks, c: Hooks)
    requires Grows(a, b) && Grows(b, c)
    ensures Grows(a, c)
  {}

  lemma CoversLasts(a: Hooks, b: Hooks, section: Section)
    requires Grows(a, b) && Covers(a, section)
    ensures Covers(b, section)
  {}

  lemma {:induction false} MergedAllGrows(hooks: Hooks, snippet: Snippet)
    ensures Grows(hooks, MergedAll(hooks, snippet))
    ensures forall i :: 0 <= i < |snippet| ==> Covers(MergedAll(hooks, snippet), snippet[i])
    decreases |snippet|
  {
    if snippet != [] {
      var next := Merged(hooks, snippet[0]);
      MergedGrows(hooks, snippet[0]);
      MergedAllGrows(next, snippet[1..]);
      GrowsTransitive(hooks, next, MergedAll(hooks, snippet));
      CoversLasts(next, MergedAll(hooks, snippet), snippet[0]);
      forall i | 0 < i < |snippet| ensures Covers(MergedAll(hooks, snippet), snippet[i]) {
        assert snippet[i] == snippet[1..][i - 1];
      }
    }
  }

  // A run of the installer for one plugin after another.
  function Installed(hooks: Hooks, snippets: seq<Snippet>): Hooks
    decreases |snippets|
  {
    if snippets == [] then hooks else Installed(MergedAll(hooks, snippets[0]), snippets[1..])
  }

  lemma {:induction false} InstalledGrows(hooks: Hooks, snippets: seq<Snippet>)
    ensures Grows(hooks, Installed(hooks, snippets))
    ensures forall n, i :: 0 <= n < |snippets| && 0 <= i < |snippets[n]| ==>
              Covers(Installed(hooks, snippets), snippets[n][i])
    decreases |snippets|
  {
    if snippets != [] {
      var next := MergedAll(hooks, snippets[0]);
      var all := Installed(hooks, snippets);
      MergedAllGrows(hooks, snippets[0]);
      InstalledGrows(next, snippets[1..]);
      GrowsTransitive(hooks, next, all);
      forall n, i | 0 <= n < |snippets| && 0 <= i < |snippets[n]|
        ensures Covers(all, snippets[n][i])
      {
        if n == 0 {
          CoversLasts(next, all, snippets[0][i]);
        } else {
          assert snippets[n] == snippets[1..][n - 1];
        }
      }
    }
  }

  predicate Idempotent(snippet: Snippet) {
    forall i :: 0 <= i < |snippet| ==> AllCarryCommand(snippet[i].entries)
  }

  lemma {:induction false} CoveredIsAbsorbed(hooks: Hooks, snippet: Snippet)
    requires forall i :: 0 <= i < |snippet| ==> Covers(hooks, snippet[i])
    ensures MergedAll(hooks, snippet) == hooks <==> Idempotent(snippet)
    decreases |snippet|
  {
    if snippet != [] {
      var section, rest := snippet[0], snippet[1..];
      PresentIsAbsorbed(hooks[section.event], section.entries);
      if AllCarryCommand(section.entries) {
        assert Merged(hooks, section) == hooks;
        assert forall i :: 0 <= i < |rest| ==> rest[i] == snippet[i + 1];
        CoveredIsAbsorbed(hooks, rest);
        assert Idempotent(snippet) <==> Idempotent(rest) by {
          if Idempotent(rest) {
            forall i | 0 <= i < |snippet| ensures AllCarryCommand(snippet[i].entries) {
              assert i > 0 ==> snippet[i] == rest[i - 1];
            }
          }
        }
      } else {
        var next := Merged(hooks, section);
        AddedKeeps(hooks[section.event], section.entries);
        MergedAllGrows(next, rest);
        assert |next[section.event]| > |hooks[section.event]|;
        assert !AllCarryCommand(snippet[0].entries);
      }
    }
  }

  // Merging an earlier snippet once more, after whatever other snippets, changes nothing
  // exactly when all its entries carry a command.
  lemma ReinstallIsAbsorbed(hooks: Hooks, snippets: seq<Snippet>, n: nat)
    requires n < |snippets|
    ensures MergedAll(Installed(hooks, snippets), snippets[n]) == Installed(hooks, snippets)
            <==> Idempotent(snippets[n])
  {
    InstalledGrows(hooks, snippets);
    CoveredIsAbsorbed(Installed(hooks, snippets), snippets[n]);
  }

  // ---------- One event, and what is counted ----------

  // Only the event of a section is touched, which is there afterwards, and its entries are
  // taken one after another.
  lemma SectionExactly(hooks: Hooks, event: string, entries: seq<Entry>, e: Entry)
    ensures Merged(hooks, Section(event, entries)).Keys == hooks.Keys + {event}
    ensures forall other :: other in hooks && other != event ==> Merged(hooks, Section(event, entries))[other] == hooks[other]
    ensures Merged(hooks, Section(event, []))[event] == if event in hooks then hooks[event] else []
    ensures Merged(hooks, Section(event, entries + [e]))[event] == Added(Merged(hooks, Section(event, entries))[event], e)
  {
    AddedOneMore(ListOf(hooks, event), entries, e);
  }

  lemma {:induction false} AddedOneMore(list: seq<Entry>, entries: seq<Entry>, e: Entry)
    ensures AddedAll(list, entries + [e]) == Added(AddedAll(list, entries), e)
    decreases |entries|
  {
    if entries == [] {
      assert [] + [e] == [e] && [e][1..] == [];
    } else {
      assert (entries + [e])[1..] == entries[1..] + [e];
      AddedOneMore(Added(list, entries[0]), entries[1..], e);
    }
  }

  // The number of entries under some events.
  function Size(hooks: Hooks, events: seq<string>): nat {
    if events == [] then 0 else (if events[0] in hooks then |hooks[events[0]]| else 0) + Size(hooks, events[1..])
  }

  predicate Distinct(events: seq<string>) {
    events == [] || (events[0] !in events[1..] && Distinct(events[1..]))
  }

  lemma {:induction false} SizeAfterSection(hooks: Hooks, section: Section, events: seq<string>)
    requires Distinct(events)
    ensures var list := ListOf(hooks, section.event);
            Size(Merged(hooks, section), events) - Size(hooks, events) ==
            if section.event in events then |AddedAll(list, section.entries)| - |list| else 0
  {
    if events != [] {
      SizeAfterSection(hooks, section, events[1..]);
    }
  }

  // The number that is reported is by how much the settings have grown.
  lemma {:induction false} GrowthIsDifference(hooks: Hooks, snippet: Snippet, events: seq<string>)
    requires Distinct(events) && forall i :: 0 <= i < |snippet| ==> snippet[i].event in events
    ensures Growth(hooks, snippet) == Size(MergedAll(hooks, snippet), events) - Size(hooks, events)
    decreases |snippet|
  {
    if snippet != [] {
      assert forall i :: 0 <= i < |snippet| - 1 ==> snippet[1..][i] == snippet[i + 1];
      SizeAfterSection(hooks, snippet[0], events);
      GrowthIsDifference(Merged(hooks, snippet[0]), snippet[1..], events);
    }
  }

  // ---------- What is skipped ----------

  lemma {:induction false} CommandsInElements(list: seq<Entry>, c: string)
    ensures c in CommandsIn(list) <==> exists e :: e in list && c in CommandsOf(e)
  {
    if list != [] {
      var n := |list| - 1;
      CommandsInElements(list[..n], c);
      assert list == list[..n] + [list[n]];
    }
  }

  // An entry is skipped exactly when it has commands and each of them stands in some entry
  // of the event.
  lemma SkippedExactly(list: seq<Entry>, entry: Entry)
    ensures Added(list, entry) == list <==>
              CommandsOf(entry) != {} && forall c :: c in CommandsOf(entry) ==> exists e :: e in list && c in CommandsOf(e)
    ensures Added(list, entry) != list ==> Added(list, entry) == list + [entry]
  {
    assert |list + [entry]| != |list|;
    forall c | c in CommandsOf(entry) ensures c in CommandsIn(list) <==> exists e :: e in list && c in CommandsOf(e) {
      CommandsInElements(list, c);
    }
  }

  // With one command that is the documented rule, an entry with the same command.
  lemma SkippedByOneCommand(list: seq<Entry>, entry: Entry, command: string)
    requires CommandsOf(entry) == {command}
    ensures Added(list, entry) == list <==> exists e :: e in list && command in CommandsOf(e)
  {
    SkippedExactly(list, entry);
  }

  // With several it is not: no entry has the commands of the skipped one.
  lemma SkippedThoughNoneIsTheSame()
    ensures var list := [Entry("", [Some("a")]), Entry("", [Some("b")])];
            var entry := Entry("", [Some("a"), Some("b")]);
            Added(list, entry) == list && forall e :: e in list ==> CommandsOf(e) != CommandsOf(entry)
  {
    var list := [Entry("", [Some("a")]), Entry("", [Some("b")])];
    var entry := Entry("", [Some("a"), Some("b")]);
    assert Some("a") in entry.hooks && Some("b") in entry.hooks;
    assert Some("a") in list[0].hooks && Some("b") !in list[0].hooks;
    assert Some("b") in list[1].hooks && Some("a") !in list[1].hooks;
    assert "a" in CommandsOf(list[0]) && "b" in CommandsOf(list[1]);
    assert list[0] in list && list[1] in list;
    SkippedExactly(list, entry);
  }
}
