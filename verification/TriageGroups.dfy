// Grouping findings before AI triage, and expanding the representatives' verdicts back to
// every member of their groups.
module TriageGroups {
  import opened Prelude

  datatype Finding = Finding(id: string, cwe: string, file: string, rule: string, snippet: string)

  datatype Group = Group(representative: string, members: seq<string>, key: string)

  /** The group key: CWE, file, rule and the fingerprint of the snippet. */
  function KeyOf(fingerprint: string -> string, f: Finding): string {
    f.cwe + "|" + f.file + "|" + f.rule + "|" + fingerprint(f.snippet)
  }

  /** Findings with the given key, in order. */
  function Members(fingerprint: string -> string, findings: seq<Finding>, key: string): seq<Finding> {
    if findings == [] then []
    else
      var front, last := Members(fingerprint, findings[..|findings|-1], key), findings[|findings|-1];
      if KeyOf(fingerprint, last) == key then front + [last] else front
  }

  /** The distinct keys, in order of first occurrence. */
  function Keys(fingerprint: string -> string, findings: seq<Finding>): seq<string> {
    if findings == [] then []
    else
      var front, key := Keys(fingerprint, findings[..|findings|-1]), KeyOf(fingerprint, findings[|findings|-1]);
      if key in front then front else front + [key]
  }

  /** The first of the members with the longest snippet. */
  function Longest(members: seq<Finding>): (f: Finding)
    requires members != []
    ensures f in members
    ensures forall g :: g in members ==> |g.snippet| <= |f.snippet|
  {
    if |members| == 1 then members[0]
    else
      var front, last := Longest(members[..|members|-1]), members[|members|-1];
      assert forall g :: g in members ==> g in members[..|members|-1] || g == last;
      if |last.snippet| > |front.snippet| then last else front
  }

  function Ids(members: seq<Finding>): seq<string> {
    if members == [] then [] else Ids(members[..|members|-1]) + [members[|members|-1].id]
  }

  ghost predicate UniqueIds(findings: seq<Finding>) {
    forall i, j :: 0 <= i < j < |findings| ==> findings[i].id != findings[j].id
  }

  // ---------- What a key tells apart ----------

  function Bars(s: string): nat {
    if s == "" then 0 else (if s[0] == '|' then 1 else 0) + Bars(s[1..])
  }

  lemma {:induction false} BarsAdd(a: string, b: string)
    ensures Bars(a + b) == Bars(a) + Bars(b)
  {
    if a == "" {
      assert a + b == b;
    } else {
      BarsAdd(a[1..], b);
      assert (a + b)[1..] == a[1..] + b;
    }
  }

  lemma {:induction false} NoBarsIff(s: string)
    ensures Bars(s) == 0 <==> '|' !in s
  {
    if s != "" {
      NoBarsIff(s[1..]);
      assert s == [s[0]] + s[1..];
    }
  }

  /** Where the first bar of a string stands. */
  function FirstBar(s: string): (k: nat)
    requires '|' in s
    ensures k < |s| && s[k] == '|'
  {
    if s[0] == '|' then 0 else 1 + FirstBar(s[1..])
  }

  lemma {:induction false} FirstBarIs(a: string, x: string)
    requires '|' !in a
    ensures '|' in a + "|" + x && FirstBar(a + "|" + x) == |a|
  {
    var s := a + "|" + x;
    assert s[|a|] == '|';
    if a != "" {
      FirstBarIs(a[1..], x);
      assert s[1..] == a[1..] + "|" + x;
    }
  }

  /** Splitting at the first bar. */
  lemma SplitAtBar(a: string, x: string, b: string, y: string)
    requires '|' !in a && '|' !in b && a + "|" + x == b + "|" + y
    ensures a == b && x == y
  {
    FirstBarIs(a, x);
    FirstBarIs(b, y);
    var s, t := a + "|" + x, b + "|" + y;
    assert s[..|a|] == a && t[..|b|] == b && s[|a|+1..] == x && t[|b|+1..] == y;
  }

  predicate SameFields(fingerprint: string -> string, f: Finding, g: Finding) {
    f.cwe == g.cwe && f.file == g.file && f.rule == g.rule && fingerprint(f.snippet) == fingerprint(g.snippet)
  }

  predicate BarFree(f: Finding) {
    '|' !in f.cwe && '|' !in f.file && '|' !in f.rule
  }

  lemma KeyBars(fingerprint: string -> string, f: Finding)
    requires '|' !in fingerprint(f.snippet)
    ensures Bars(KeyOf(fingerprint, f)) == 3 <==> BarFree(f)
  {
    var fp := fingerprint(f.snippet);
    BarsAdd(f.cwe + "|" + f.file + "|" + f.rule + "|", fp);
    BarsAdd(f.cwe + "|" + f.file + "|" + f.rule, "|");
    BarsAdd(f.cwe + "|" + f.file + "|", f.rule);
    BarsAdd(f.cwe + "|" + f.file, "|");
    BarsAdd(f.cwe + "|", f.file);
    BarsAdd(f.cwe, "|");
    assert Bars("|") == 1;
    NoBarsIff(f.cwe);
    NoBarsIff(f.file);
    NoBarsIff(f.rule);
    NoBarsIff(fp);
  }

  lemma KeyShape(fingerprint: string -> string, f: Finding)
    ensures KeyOf(fingerprint, f) == f.cwe + "|" + (f.file + "|" + (f.rule + "|" + fingerprint(f.snippet)))
  {}

  lemma BarFreeKeysAgree(fingerprint: string -> string, f: Finding, g: Finding)
    requires '|' !in fingerprint(f.snippet) && '|' !in fingerprint(g.snippet)
    requires BarFree(f) && KeyOf(fingerprint, f) == KeyOf(fingerprint, g)
    ensures SameFields(fingerprint, f, g)
  {
    KeyBars(fingerprint, f);
    KeyBars(fingerprint, g);
    KeyShape(fingerprint, f);
    KeyShape(fingerprint, g);
    SplitAtBar(f.cwe, f.file + "|" + (f.rule + "|" + fingerprint(f.snippet)),
               g.cwe, g.file + "|" + (g.rule + "|" + fingerprint(g.snippet)));
    SplitAtBar(f.file, f.rule + "|" + fingerprint(f.snippet), g.file, g.rule + "|" + fingerprint(g.snippet));
    SplitAtBar(f.rule, fingerprint(f.snippet), g.rule, fingerprint(g.snippet));
  }

  /** Findings that agree in CWE, file, rule and snippet fingerprint always share a group. The
      converse holds for a finding exactly when none of its three fields contains a bar; with
      one, some other finding shares its key. */
  lemma KeyTellsApartIff(fingerprint: string -> string, f: Finding)
    requires forall s :: '|' !in fingerprint(s)
    ensures forall g :: SameFields(fingerprint, f, g) ==> KeyOf(fingerprint, f) == KeyOf(fingerprint, g)
    ensures (forall g :: KeyOf(fingerprint, f) == KeyOf(fingerprint, g) ==> SameFields(fingerprint, f, g)) <==> BarFree(f)
  {
    if BarFree(f) {
      forall g | KeyOf(fingerprint, f) == KeyOf(fingerprint, g) ensures SameFields(fingerprint, f, g) {
        BarFreeKeysAgree(fingerprint, f, g);
      }
    } else {
      var g := Confused(f);
      ConfusedSharesKey(fingerprint, f);
      assert !SameFields(fingerprint, f, g);
    }
  }

  /** Another finding with the same key: the bar is read as the end of its field. */
  function Confused(f: Finding): (g: Finding)
    requires !BarFree(f)
    ensures g.cwe != f.cwe || g.file != f.file || g.rule != f.rule
    ensures g.snippet == f.snippet
  {
    if '|' in f.cwe then
      var k := FirstBar(f.cwe);
      f.(cwe := f.cwe[..k], file := f.cwe[k+1..], rule := f.file + "|" + f.rule)
    else if '|' in f.file then
      var k := FirstBar(f.file);
      f.(file := f.file[..k], rule := f.file[k+1..] + "|" + f.rule)
    else
      var k := FirstBar(f.rule);
      f.(file := f.file + "|" + f.rule[..k], rule := f.rule[k+1..])
  }

  lemma ConfusedSharesKey(fingerprint: string -> string, f: Finding)
    requires !BarFree(f)
    ensures KeyOf(fingerprint, Confused(f)) == KeyOf(fingerprint, f)
  {
    KeyShape(fingerprint, f);
    KeyShape(fingerprint, Confused(f));
    var fp := fingerprint(f.snippet);
    if '|' in f.cwe {
      BarJoins(f.cwe, f.file + "|" + (f.rule + "|" + fp));
      Regroup(f.file, f.rule, fp);
    } else if '|' in f.file {
      BarJoins(f.file, f.rule + "|" + fp);
      Regroup(f.file[FirstBar(f.file)+1..], f.rule, fp);
    } else {
      BarJoins(f.rule, fp);
      Regroup(f.file, f.rule[..FirstBar(f.rule)], f.rule[FirstBar(f.rule)+1..] + "|" + fp);
    }
  }

  lemma BarJoins(field: string, rest: string)
    requires '|' in field
    ensures var k := FirstBar(field);
            field + "|" + rest == field[..k] + "|" + (field[k+1..] + "|" + rest)
  {
    var k := FirstBar(field);
    var a, b := field[..k], field[k+1..];
    assert field == a + "|" + b;
    Regroup(a, b, rest);
  }

  lemma Regroup(a: string, b: string, c: string)
    ensures a + "|" + (b + "|" + c) == (a + "|" + b) + "|" + c
  {}

  // ---------- The groups ----------

  lemma {:induction false} MembersMeaning(fingerprint: string -> string, findings: seq<Finding>, key: string, f: Finding)
    ensures f in Members(fingerprint, findings, key) <==> f in findings && KeyOf(fingerprint, f) == key
  {
    if findings != [] {
      var front, last := findings[..|findings|-1], findings[|findings|-1];
      assert findings == front + [last];
      MembersMeaning(fingerprint, front, key, f);
    }
  }

  lemma {:induction false} KeysMeaning(fingerprint: string -> string, findings: seq<Finding>, key: string)
    ensures key in Keys(fingerprint, findings) <==> Members(fingerprint, findings, key) != []
    ensures forall i, j :: 0 <= i < j < |Keys(fingerprint, findings)| ==>
              Keys(fingerprint, findings)[i] != Keys(fingerprint, findings)[j]
  {
    if findings != [] {
      KeysMeaning(fingerprint, findings[..|findings|-1], key);
    }
  }

  /** Members stand in the order of the findings: those of a list continued are those of its
      first part, then those of the second. */
  lemma {:induction false} MembersKeepOrder(fingerprint: string -> string, a: seq<Finding>, b: seq<Finding>, key: string)
    ensures Members(fingerprint, a + b, key) == Members(fingerprint, a, key) + Members(fingerprint, b, key)
    decreases |b|
  {
    if b == [] {
      assert a + b == a;
    } else {
      MembersKeepOrder(fingerprint, a, b[..|b|-1], key);
      assert (a + b)[..|a + b|-1] == a + b[..|b|-1];
    }
  }

  /** Keys stand in the order of first occurrence: continuing a list only adds keys behind. */
  lemma {:induction false} KeysKeepOrder(fingerprint: string -> string, a: seq<Finding>, b: seq<Finding>)
    ensures Keys(fingerprint, a) <= Keys(fingerprint, a + b)
    decreases |b|
  {
    if b == [] {
      assert a + b == a;
    } else {
      KeysKeepOrder(fingerprint, a, b[..|b|-1]);
      assert (a + b)[..|a + b|-1] == a + b[..|b|-1];
    }
  }

  /** A group names its key, its representative and its members, in order. */
  lemma GroupColumns(fingerprint: string -> string, findings: seq<Finding>, k: nat)
    requires k < |Keys(fingerprint, findings)|
    ensures |Groups(fingerprint, findings)| == |Keys(fingerprint, findings)|
    ensures var key := Keys(fingerprint, findings)[k];
            var group, members := Groups(fingerprint, findings)[k], Members(fingerprint, findings, key);
            && group.key == key && group.representative == Leader(fingerprint, findings, key).id
            && |group.members| == |members| && forall j :: 0 <= j < |members| ==> group.members[j] == members[j].id
  {
    IdsAt(Members(fingerprint, findings, Keys(fingerprint, findings)[k]));
  }

  lemma {:induction false} IdsAt(members: seq<Finding>)
    ensures |Ids(members)| == |members| && forall j :: 0 <= j < |members| ==> Ids(members)[j] == members[j].id
  {
    if members != [] {
      IdsAt(members[..|members|-1]);
    }
  }

  lemma UniqueIdsDecide(findings: seq<Finding>, f: Finding, g: Finding)
    requires UniqueIds(findings) && f in findings && g in findings && f.id == g.id
    ensures f == g
  {}

  /** The representative of a finding's group: the one finding of its key that is sent out. */
  function Leader(fingerprint: string -> string, findings: seq<Finding>, key: string): (leader: Finding)
    requires key in Keys(fingerprint, findings)
    ensures leader in findings && KeyOf(fingerprint, leader) == key
  {
    KeysMeaning(fingerprint, findings, key);
    MembersMeaning(fingerprint, findings, key, Longest(Members(fingerprint, findings, key)));
    Longest(Members(fingerprint, findings, key))
  }

  /** Of several longest the first is sent out. */
  lemma {:induction false} LongestIsFirst(members: seq<Finding>) returns (k: nat)
    requires members != []
    ensures k < |members| && members[k] == Longest(members)
    ensures forall j :: 0 <= j < k ==> |members[j].snippet| < |members[k].snippet|
  {
    if |members| == 1 {
      k := 0;
    } else {
      var front, last := members[..|members|-1], members[|members|-1];
      k := LongestIsFirst(front);
      if |last.snippet| > |front[k].snippet| {
        k := |members| - 1;
        assert forall j :: 0 <= j < |front| ==> front[j] in front && front[j] == members[j];
      }
    }
  }

  /** No finding of the group has a longer snippet than the one that is sent out. */
  lemma LeaderIsLongest(fingerprint: string -> string, findings: seq<Finding>, f: Finding)
    requires f in findings
    ensures KeyOf(fingerprint, f) in Keys(fingerprint, findings)
    ensures |f.snippet| <= |Leader(fingerprint, findings, KeyOf(fingerprint, f)).snippet|
  {
    OwnKeyIsKnown(fingerprint, findings, f);
    MembersMeaning(fingerprint, findings, KeyOf(fingerprint, f), f);
  }

  lemma OwnKeyIsKnown(fingerprint: string -> string, findings: seq<Finding>, f: Finding)
    requires f in findings
    ensures KeyOf(fingerprint, f) in Keys(fingerprint, findings)
  {
    MembersMeaning(fingerprint, findings, KeyOf(fingerprint, f), f);
    KeysMeaning(fingerprint, findings, KeyOf(fingerprint, f));
  }

  function GroupOf(fingerprint: string -> string, findings: seq<Finding>, key: string): Group
    requires key in Keys(fingerprint, findings)
  {
    Group(Leader(fingerprint, findings, key).id, Ids(Members(fingerprint, findings, key)), key)
  }

  /** The representatives, one for each key in order. */
  function Leaders(fingerprint: string -> string, findings: seq<Finding>): seq<Finding> {
    var keys := Keys(fingerprint, findings);
    seq(|keys|, k requires 0 <= k < |keys| => Leader(fingerprint, findings, keys[k]))
  }

  /** One group for each key, in order. */
  function Groups(fingerprint: string -> string, findings: seq<Finding>): (groups: seq<Group>) {
    var keys := Keys(fingerprint, findings);
    seq(|keys|, k requires 0 <= k < |keys| => GroupOf(fingerprint, findings, keys[k]))
  }

  function ByRepresentative(groups: seq<Group>): map<string, Group> {
    if groups == [] then map[]
    else
      var last := groups[|groups|-1];
      ByRepresentative(groups[..|groups|-1])[last.representative := last]
  }

  /** The groups, by representative id. */
  function GroupMap(fingerprint: string -> string, findings: seq<Finding>): map<string, Group> {
    ByRepresentative(Groups(fingerprint, findings))
  }

  predicate Holds(groups: map<string, Group>, group: Group) {
    group.representative in groups && groups[group.representative] == group
  }

  lemma NextGroup(groups: seq<Group>, k: nat)
    requires k < |groups|
    ensures ByRepresentative(groups[..k+1]) == ByRepresentative(groups[..k])[groups[k].representative := groups[k]]
  {
    assert groups[..k+1][..k] == groups[..k];
  }

  lemma {:induction false} DistinctAreHeld(groups: seq<Group>, k: nat)
    requires forall i, j :: 0 <= i < j < |groups| ==> groups[i].representative != groups[j].representative
    requires k < |groups|
    ensures Holds(ByRepresentative(groups), groups[k])
  {
    if k < |groups| - 1 {
      DistinctAreHeld(groups[..|groups|-1], k);
    }
  }

  lemma {:induction false} HeldIsListed(groups: seq<Group>, id: string) returns (k: nat)
    requires id in ByRepresentative(groups)
    ensures k < |groups| && groups[k] == ByRepresentative(groups)[id] && groups[k].representative == id
  {
    if id == groups[|groups|-1].representative {
      k := |groups| - 1;
    } else {
      k := HeldIsListed(groups[..|groups|-1], id);
    }
  }

  /** With unique ids, the map holds each key's group under its own representative. */
  lemma GroupIsHeld(fingerprint: string -> string, findings: seq<Finding>, k: nat)
    requires UniqueIds(findings) && k < |Keys(fingerprint, findings)|
    ensures Holds(GroupMap(fingerprint, findings), GroupOf(fingerprint, findings, Keys(fingerprint, findings)[k]))
  {
    var keys, groups := Keys(fingerprint, findings), Groups(fingerprint, findings);
    forall i, j | 0 <= i < j < |groups| ensures groups[i].representative != groups[j].representative {
      var mine, other := Leader(fingerprint, findings, keys[i]), Leader(fingerprint, findings, keys[j]);
      KeysMeaning(fingerprint, findings, keys[i]);
      if mine.id == other.id {
        UniqueIdsDecide(findings, mine, other);
      }
    }
    DistinctAreHeld(groups, k);
  }

  /** Two passes over the findings: collect the groups, then pick their representatives. */
  method GroupFindings(findings: seq<Finding>, fingerprint: string -> string)
    returns (deduped: seq<Finding>, groups: map<string, Group>)
    ensures deduped == Leaders(fingerprint, findings)
    ensures groups == GroupMap(fingerprint, findings)
  {
    var order: seq<string> := [];
    var byKey: map<string, seq<Finding>> := map[];
    for i := 0 to |findings|
      invariant Collected(fingerprint, findings, i, order, byKey)
    {
      CollectStep(fingerprint, findings, i, order, byKey);
      var f := findings[i];
      var key := KeyOf(fingerprint, f);
      if key !in byKey {
        byKey := byKey[key := []];
        order := order + [key];
      }
      byKey := byKey[key := byKey[key] + [f]];
    }
    assert findings[..|findings|] == findings;
    deduped, groups := [], map[];
    for k := 0 to |order|
      invariant Picked(fingerprint, findings, k, deduped, groups)
    {
      PickStep(fingerprint, findings, k, deduped, groups);
      var members := byKey[order[k]];
      var representative := Longest(members);
      groups := groups[representative.id := Group(representative.id, Ids(members), order[k])];
      deduped := deduped + [representative];
    }
    AllPicked(fingerprint, findings, deduped, groups);
  }

  /** The first pass after `i` findings. */
  ghost predicate Collected(fingerprint: string -> string, findings: seq<Finding>, i: nat, order: seq<string>,
                            byKey: map<string, seq<Finding>>)
  {
    && i <= |findings|
    && order == Keys(fingerprint, findings[..i])
    && (forall key :: key in byKey <==> key in order)
    && (forall key :: key in byKey ==> byKey[key] == Members(fingerprint, findings[..i], key))
  }

  lemma CollectStep(fingerprint: string -> string, findings: seq<Finding>, i: nat, order: seq<string>,
                    byKey: map<string, seq<Finding>>)
    requires i < |findings| && Collected(fingerprint, findings, i, order, byKey)
    ensures var f, key := findings[i], KeyOf(fingerprint, findings[i]);
            if key in byKey then Collected(fingerprint, findings, i + 1, order, byKey[key := byKey[key] + [f]])
            else Collected(fingerprint, findings, i + 1, order + [key], byKey[key := []][key := [] + [f]])
  {
    assert findings[..i+1][..i] == findings[..i];
    KeysMeaning(fingerprint, findings[..i], KeyOf(fingerprint, findings[i]));
  }

  /** The second pass after `k` keys. */
  ghost predicate Picked(fingerprint: string -> string, findings: seq<Finding>, k: nat, deduped: seq<Finding>,
                         groups: map<string, Group>)
  {
    IsPrefix(Leaders(fingerprint, findings), Groups(fingerprint, findings), k, deduped, groups)
  }

  ghost predicate IsPrefix(leaders: seq<Finding>, all: seq<Group>, k: nat, deduped: seq<Finding>, groups: map<string, Group>) {
    k <= |leaders| == |all| && deduped == leaders[..k] && groups == ByRepresentative(all[..k])
  }

  lemma NextOfPrefix(leaders: seq<Finding>, all: seq<Group>, k: nat, deduped: seq<Finding>, groups: map<string, Group>)
    requires k < |leaders| && IsPrefix(leaders, all, k, deduped, groups)
    ensures IsPrefix(leaders, all, k + 1, deduped + [leaders[k]], groups[all[k].representative := all[k]])
  {
    NextGroup(all, k);
    assert leaders[..k+1] == leaders[..k] + [leaders[k]];
  }

  lemma LeaderAt(fingerprint: string -> string, findings: seq<Finding>, k: nat)
    requires k < |Keys(fingerprint, findings)|
    ensures |Leaders(fingerprint, findings)| == |Groups(fingerprint, findings)| == |Keys(fingerprint, findings)|
    ensures var key := Keys(fingerprint, findings)[k];
            var members := Members(fingerprint, findings, key);
            && members != []
            && Leaders(fingerprint, findings)[k] == Longest(members)
            && Groups(fingerprint, findings)[k] == Group(Longest(members).id, Ids(members), key)
  {
    KeysMeaning(fingerprint, findings, Keys(fingerprint, findings)[k]);
  }

  lemma PickStep(fingerprint: string -> string, findings: seq<Finding>, k: nat, deduped: seq<Finding>,
                 groups: map<string, Group>)
    requires k < |Keys(fingerprint, findings)| && Picked(fingerprint, findings, k, deduped, groups)
    ensures var key := Keys(fingerprint, findings)[k];
            var members := Members(fingerprint, findings, key);
            && members != []
            && var f := Longest(members);
               Picked(fingerprint, findings, k + 1, deduped + [f], groups[f.id := Group(f.id, Ids(members), key)])
  {
    LeaderAt(fingerprint, findings, k);
    NextOfPrefix(Leaders(fingerprint, findings), Groups(fingerprint, findings), k, deduped, groups);
  }

  lemma AllPicked(fingerprint: string -> string, findings: seq<Finding>, deduped: seq<Finding>, groups: map<string, Group>)
    requires Picked(fingerprint, findings, |Keys(fingerprint, findings)|, deduped, groups)
    ensures deduped == Leaders(fingerprint, findings) && groups == GroupMap(fingerprint, findings)
  {
    var leaders, all := Leaders(fingerprint, findings), Groups(fingerprint, findings);
    assert leaders[..|leaders|] == leaders && all[..|all|] == all;
  }

  // ---------- Expanding the verdicts ----------

  /** A group that lists `id` and whose representative was answered. */
  predicate Answers<V>(groups: map<string, Group>, results: map<string, V>, rep: string, id: string) {
    rep in groups && rep in results && id in groups[rep].members
  }

  /** Every listed member of an answered group, and every answered id, gets a verdict: that
      of an answered group listing it if there is one, its own otherwise. */
  ghost predicate IsExpansion<V>(groups: map<string, Group>, results: map<string, V>, expanded: map<string, V>) {
    (forall rep, id :: Answers(groups, results, rep, id) ==> id in expanded) &&
    (forall id :: id in results ==> id in expanded) &&
    (forall id :: id in expanded ==>
      (exists rep :: Answers(groups, results, rep, id) && expanded[id] == results[rep])
      || (id in results && expanded[id] == results[id] && forall rep :: !Answers(groups, results, rep, id)))
  }

  method ExpandResults<V>(groups: map<string, Group>, results: map<string, V>) returns (expanded: map<string, V>)
    ensures IsExpansion(groups, results, expanded)
  {
    expanded := map[];
    var todo := groups.Keys;
    while todo != {}
      invariant todo <= groups.Keys
      invariant forall rep, id :: rep !in todo && Answers(groups, results, rep, id) ==> id in expanded
      invariant forall id :: id in expanded ==> exists rep :: Answers(groups, results, rep, id) && expanded[id] == results[rep]
      decreases todo
    {
      var rep :| rep in todo;
      if rep in results {
        var members := groups[rep].members;
        for i := 0 to |members|
          invariant forall other, id :: other !in todo && Answers(groups, results, other, id) ==> id in expanded
          invariant forall j :: 0 <= j < i ==> members[j] in expanded
          invariant forall id :: id in expanded ==> exists other :: Answers(groups, results, other, id) && expanded[id] == results[other]
        {
          assert Answers(groups, results, rep, members[i]);
          expanded := expanded[members[i] := results[rep]];
        }
      }
      todo := todo - {rep};
    }
    ghost var fromGroups := expanded;
    var rest := results.Keys;
    while rest != {}
      invariant rest <= results.Keys
      invariant fromGroups.Keys <= expanded.Keys
      invariant forall id :: id in results && id !in rest ==> id in expanded
      invariant forall id :: id in expanded ==>
        if id in fromGroups then expanded[id] == fromGroups[id] else id in results && expanded[id] == results[id]
      decreases rest
    {
      var id :| id in rest;
      if id !in expanded {
        expanded := expanded[id := results[id]];
      }
      rest := rest - {id};
    }
  }

  lemma {:induction false} IdsMeaning(members: seq<Finding>, id: string)
    ensures id in Ids(members) <==> exists f :: f in members && f.id == id
  {
    if members != [] {
      var front, last := members[..|members|-1], members[|members|-1];
      assert members == front + [last];
      IdsMeaning(front, id);
      assert last in members;
    }
  }

  lemma MemberIds(fingerprint: string -> string, findings: seq<Finding>, key: string, f: Finding)
    requires UniqueIds(findings) && f in findings
    ensures f.id in Ids(Members(fingerprint, findings, key)) <==> KeyOf(fingerprint, f) == key
  {
    var members := Members(fingerprint, findings, key);
    MembersMeaning(fingerprint, findings, key, f);
    IdsMeaning(members, f.id);
    if f.id in Ids(members) {
      var g :| g in members && g.id == f.id;
      MembersMeaning(fingerprint, findings, key, g);
      UniqueIdsDecide(findings, f, g);
    }
  }

  /** The groups partition the findings: a finding is listed by the group of its own key
      and by no other. */
  lemma GroupsPartition(fingerprint: string -> string, findings: seq<Finding>, f: Finding, rep: string)
    requires UniqueIds(findings) && f in findings
    requires rep in GroupMap(fingerprint, findings)
    ensures KeyOf(fingerprint, f) in Keys(fingerprint, findings)
    ensures f.id in GroupMap(fingerprint, findings)[rep].members
       <==> rep == Leader(fingerprint, findings, KeyOf(fingerprint, f)).id
  {
    var keys := Keys(fingerprint, findings);
    var key := KeyOf(fingerprint, f);
    var groups := GroupMap(fingerprint, findings);
    OwnKeyIsKnown(fingerprint, findings, f);
    var k := HeldIsListed(Groups(fingerprint, findings), rep);
    MemberIds(fingerprint, findings, keys[k], f);
    if rep == Leader(fingerprint, findings, key).id {
      UniqueIdsDecide(findings, Leader(fingerprint, findings, key), Leader(fingerprint, findings, keys[k]));
    }
  }

  /** A finding whose id is in the map is its own group's representative. */
  lemma HeldFindingLeads(fingerprint: string -> string, findings: seq<Finding>, f: Finding)
    requires UniqueIds(findings) && f in findings && f.id in GroupMap(fingerprint, findings)
    ensures KeyOf(fingerprint, f) in Keys(fingerprint, findings)
    ensures Leader(fingerprint, findings, KeyOf(fingerprint, f)) == f
  {
    var k := HeldIsListed(Groups(fingerprint, findings), f.id);
    UniqueIdsDecide(findings, f, Leader(fingerprint, findings, Keys(fingerprint, findings)[k]));
  }

  /** After expansion every finding carries exactly its representative's answer; a group
      whose representative was not answered stays wholly unanswered. */
  lemma ExpansionFollowsLeaders<V>(fingerprint: string -> string, findings: seq<Finding>,
                                   results: map<string, V>, expanded: map<string, V>, f: Finding)
    requires UniqueIds(findings) && f in findings
    requires IsExpansion(GroupMap(fingerprint, findings), results, expanded)
    requires results.Keys <= GroupMap(fingerprint, findings).Keys
    ensures KeyOf(fingerprint, f) in Keys(fingerprint, findings)
    ensures var leader := Leader(fingerprint, findings, KeyOf(fingerprint, f)).id;
            (f.id in expanded <==> leader in results) && (leader in results ==> expanded[f.id] == results[leader])
  {
    var keys := Keys(fingerprint, findings);
    var groups := GroupMap(fingerprint, findings);
    OwnKeyIsKnown(fingerprint, findings, f);
    var leader := Leader(fingerprint, findings, KeyOf(fingerprint, f));
    forall rep ensures Answers(groups, results, rep, f.id) <==> rep in groups && rep == leader.id && rep in results {
      if rep in groups {
        GroupsPartition(fingerprint, findings, f, rep);
      }
    }
    var k :| 0 <= k < |keys| && keys[k] == KeyOf(fingerprint, f);
    GroupIsHeld(fingerprint, findings, k);
    assert leader.id in groups;
    if leader.id in results {
      assert Answers(groups, results, leader.id, f.id);
    }
    if f.id in groups {
      HeldFindingLeads(fingerprint, findings, f);
    }
  }

  /** The answers of a triage run on the representatives only. */
  ghost predicate AnsweredBy<V(!new)>(triage: Finding -> Option<V>, fingerprint: string -> string, findings: seq<Finding>,
                                      results: map<string, V>)
  {
    results.Keys <= GroupMap(fingerprint, findings).Keys &&
    forall key :: key in Keys(fingerprint, findings) ==>
      SameAnswer(triage(Leader(fingerprint, findings, key)), results, Leader(fingerprint, findings, key).id)
  }

  /** `results` records `answer` under `id`. */
  predicate SameAnswer<V(==)>(answer: Option<V>, results: map<string, V>, id: string) {
    if answer.Some? then id in results && results[id] == answer.value else id !in results
  }

  /** Grouping refines per-finding triage exactly when the triage treats every finding as it
      treats its group's representative, which holds whenever it looks at the key alone. */
  lemma GroupingRefinesTriageIff<V(!new)>(triage: Finding -> Option<V>, fingerprint: string -> string, findings: seq<Finding>,
                                          results: map<string, V>, expanded: map<string, V>)
    requires UniqueIds(findings)
    requires AnsweredBy(triage, fingerprint, findings, results)
    requires IsExpansion(GroupMap(fingerprint, findings), results, expanded)
    ensures (forall f :: f in findings ==> SameAnswer(triage(f), expanded, f.id))
       <==> (forall f :: f in findings ==>
              KeyOf(fingerprint, f) in Keys(fingerprint, findings)
              && triage(f) == triage(Leader(fingerprint, findings, KeyOf(fingerprint, f))))
  {
    forall f | f in findings
      ensures KeyOf(fingerprint, f) in Keys(fingerprint, findings)
      ensures SameAnswer(triage(f), expanded, f.id)
         <==> triage(f) == triage(Leader(fingerprint, findings, KeyOf(fingerprint, f)))
    {
      ExpansionFollowsLeaders(fingerprint, findings, results, expanded, f);
      var leader := Leader(fingerprint, findings, KeyOf(fingerprint, f));
      assert SameAnswer(triage(leader), results, leader.id);
    }
  }
}
