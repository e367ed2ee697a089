/**
 * The plan analyzer: a summary of a Terraform plan, canon findings for its
 * resource types and diagnostics, provider compatibility warnings and AWS
 * limit warnings, together with the dotted-version comparison and the
 * version-range check these rely on. The plan arrives decoded into typed
 * records; each canon file arrives as its decoded contents.
 */
module PlanAnalyzer {
  import opened Wrappers
  import opened Text
  import opened Seqs
  import opened Json
  import opened CanonLib

  // ================================================================ plan records

  /** One entry of `resource_changes`; an absent `type` or `address` is `None`, absent actions are `[]`. */
  datatype ResourceChange = ResourceChange(rtype: Option<string>, address: Option<string>, actions: seq<string>)

  /** One entry of `diagnostics`. */
  datatype Diagnostic = Diagnostic(severity: Option<string>, summary: Option<string>, detail: Option<string>, address: Option<string>)

  /** One entry of `configuration.provider_config`, in dictionary order. */
  datatype ProviderConfig = ProviderConfig(key: string, versionConstraint: Option<string>)

  /** The parts of `terraform show -json` output the analyzer reads. */
  datatype Plan = Plan(
    resourceChanges: seq<ResourceChange>,
    diagnostics: seq<Diagnostic>,
    terraformVersion: Option<string>,
    providerConfig: seq<ProviderConfig>)

  // ================================================================ parse_plan

  /** The action lists `parse_plan` keeps, in the order it reports them. */
  const ActionKinds: seq<string> := ["create", "update", "delete", "no-op", "read"]

  /** The result of `parse_plan`; `actions` keeps the dictionary's order. */
  datatype PlanSummary = PlanSummary(
    totalChanges: nat,
    actions: seq<(string, seq<string>)>,
    resourceTypes: seq<string>,
    diagnosticsCount: nat,
    terraformVersion: string)

  /** `address` once for each occurrence of `kind` in `actions`. */
  function ActionHits(address: string, actions: seq<string>, kind: string): seq<string>
    decreases |actions|
  {
    if actions == [] then []
    else ActionHits(address, actions[..|actions| - 1], kind) + (if actions[|actions| - 1] == kind then [address] else [])
  }

  /** The addresses `parse_plan` files under `kind`, in plan order. */
  function AddressesFor(changes: seq<ResourceChange>, kind: string): seq<string>
    decreases |changes|
  {
    if changes == [] then []
    else
      var rc := changes[|changes| - 1];
      AddressesFor(changes[..|changes| - 1], kind) + ActionHits(rc.address.GetOr("unknown"), rc.actions, kind)
  }

  /** The distinct types of the changes (absent ones read as `default`), in order of first appearance. */
  function DistinctTypes(changes: seq<ResourceChange>, default: string): (r: seq<string>)
    ensures Distinct(r)
    ensures forall t :: t in r <==> exists i :: 0 <= i < |changes| && changes[i].rtype.GetOr(default) == t
    decreases |changes|
  {
    if changes == [] then []
    else
      var init := changes[..|changes| - 1];
      var prev := DistinctTypes(init, default);
      var t := changes[|changes| - 1].rtype.GetOr(default);
      assert forall i :: 0 <= i < |init| ==> init[i] == changes[i];
      if t in prev then prev else prev + [t]
  }

  predicate HasAddresses(kv: (string, seq<string>)) {
    kv.1 != []
  }

  /** `{k: v for k, v in actions.items() if v}` once every kind has its addresses. */
  function ActionLists(changes: seq<ResourceChange>): seq<(string, seq<string>)> {
    Filter(seq(|ActionKinds|, i requires 0 <= i < |ActionKinds| => (ActionKinds[i], AddressesFor(changes, ActionKinds[i]))),
           HasAddresses)
  }

  /** What `parse_plan` returns: the types are the distinct ones, sorted. */
  function Summary(plan: Plan): PlanSummary {
    PlanSummary(|plan.resourceChanges|, ActionLists(plan.resourceChanges),
                SortStrings(DistinctTypes(plan.resourceChanges, "unknown")), |plan.diagnostics|,
                plan.terraformVersion.GetOr("unknown"))
  }

  /**
   * `parse_plan`: the number of changes, the addresses under each of the five
   * actions that has any, the sorted distinct resource types, the number of
   * diagnostics and the Terraform version.
   */
  method ParsePlan(plan: Plan) returns (s: PlanSummary)
    ensures s == Summary(plan)
    ensures s.totalChanges == |plan.resourceChanges|
    ensures s.actions == ActionLists(plan.resourceChanges)
    ensures StrictlySortedStr(s.resourceTypes)
    ensures forall t :: t in s.resourceTypes <==>
              exists i :: 0 <= i < |plan.resourceChanges| && plan.resourceChanges[i].rtype.GetOr("unknown") == t
    ensures s.diagnosticsCount == |plan.diagnostics|
    ensures s.terraformVersion == plan.terraformVersion.GetOr("unknown")
  {
    var changes := plan.resourceChanges;
    var acts: map<string, seq<string>> := map["create" := [], "update" := [], "delete" := [], "no-op" := [], "read" := []];
    var types: seq<string> := [];
    var n := 0;
    while n < |changes|
      invariant 0 <= n <= |changes|
      invariant forall k :: k in acts <==> k in ActionKinds
      invariant forall k :: k in ActionKinds ==> acts[k] == AddressesFor(changes[..n], k)
      invariant types == DistinctTypes(changes[..n], "unknown")
    {
      PrefixSnoc(changes, n);
      types := NoteType(types, changes[..n], changes[n], "unknown");
      acts := FileAddress(acts, changes[..n], changes[n]);
      n := n + 1;
    }
    assert changes[..n] == changes;
    SortDistinctStrict(types);
    SortStringsMembers(types);
    s := PlanSummary(|changes|, ReportedActions(acts, changes), SortStrings(types), |plan.diagnostics|,
                     plan.terraformVersion.GetOr("unknown"));
  }

  /** `{k: v for k, v in actions.items() if v}` over the filled-in dictionary. */
  function ReportedActions(acts: map<string, seq<string>>, changes: seq<ResourceChange>): (r: seq<(string, seq<string>)>)
    requires forall k :: k in ActionKinds ==> k in acts && acts[k] == AddressesFor(changes, k)
    ensures r == ActionLists(changes)
  {
    var pairs := seq(|ActionKinds|, i requires 0 <= i < |ActionKinds| => (ActionKinds[i], acts[ActionKinds[i]]));
    assert pairs == seq(|ActionKinds|, i requires 0 <= i < |ActionKinds| => (ActionKinds[i], AddressesFor(changes, ActionKinds[i])));
    Filter(pairs, HasAddresses)
  }

  /** `resource_types.add(rtype)` on the distinct types seen so far. */
  method NoteType(types: seq<string>, before: seq<ResourceChange>, rc: ResourceChange, default: string)
    returns (out: seq<string>)
    requires types == DistinctTypes(before, default)
    ensures out == DistinctTypes(before + [rc], default)
  {
    assert (before + [rc])[..|before|] == before;
    var rtype := rc.rtype.GetOr(default);
    out := types;
    if rtype !in out {
      out := out + [rtype];
    }
  }

  /** The inner loop of `parse_plan`: files `rc`'s address under each of its actions that is a key. */
  method FileAddress(acts: map<string, seq<string>>, before: seq<ResourceChange>, rc: ResourceChange)
    returns (out: map<string, seq<string>>)
    requires forall k :: k in acts ==> acts[k] == AddressesFor(before, k)
    ensures out.Keys == acts.Keys
    ensures forall k :: k in out ==> out[k] == AddressesFor(before + [rc], k)
  {
    var address := rc.address.GetOr("unknown");
    out := acts;
    var m := 0;
    while m < |rc.actions|
      invariant 0 <= m <= |rc.actions|
      invariant out.Keys == acts.Keys
      invariant forall k :: k in out ==> out[k] == acts[k] + ActionHits(address, rc.actions[..m], k)
    {
      var action := rc.actions[m];
      forall k | k in out
        ensures ActionHits(address, rc.actions[..m + 1], k) ==
                ActionHits(address, rc.actions[..m], k) + (if action == k then [address] else [])
      {
        ActionHitsStep(address, rc.actions, m, k);
      }
      out := FileUnder(out, address, action);
      m := m + 1;
    }
    assert rc.actions[..m] == rc.actions;
    forall k | k in out
      ensures AddressesFor(before + [rc], k) == AddressesFor(before, k) + ActionHits(address, rc.actions, k)
    {
      AddressesForSnoc(before, rc, k);
    }
  }

  /** `if action in actions: actions[action].append(address)` */
  method FileUnder(acts: map<string, seq<string>>, address: string, action: string)
    returns (out: map<string, seq<string>>)
    ensures out.Keys == acts.Keys
    ensures forall k :: k in out ==> out[k] == acts[k] + (if action == k then [address] else [])
  {
    out := acts;
    if action in out {
      out := out[action := out[action] + [address]];
    }
  }

  lemma ActionHitsStep(address: string, actions: seq<string>, m: int, kind: string)
    requires 0 <= m < |actions|
    ensures ActionHits(address, actions[..m + 1], kind) ==
              ActionHits(address, actions[..m], kind) + (if actions[m] == kind then [address] else [])
  {
    PrefixPrefix(actions, m);
  }

  lemma AddressesForSnoc(before: seq<ResourceChange>, rc: ResourceChange, kind: string)
    ensures AddressesFor(before + [rc], kind) == AddressesFor(before, kind) + ActionHits(rc.address.GetOr("unknown"), rc.actions, kind)
  {
    assert (before + [rc])[..|before|] == before;
  }

  /** An address is filed under `kind` exactly when its change lists `kind` among its actions. */
  lemma {:induction false} AddressesForMember(changes: seq<ResourceChange>, kind: string, a: string)
    ensures a in AddressesFor(changes, kind) <==>
              exists i :: 0 <= i < |changes| && changes[i].address.GetOr("unknown") == a && kind in changes[i].actions
    decreases |changes|
  {
    if changes != [] {
      var init := changes[..|changes| - 1];
      var rc := changes[|changes| - 1];
      AddressesForMember(init, kind, a);
      ActionHitsMember(rc.address.GetOr("unknown"), rc.actions, kind, a);
      assert forall i :: 0 <= i < |init| ==> init[i] == changes[i];
    }
  }

  lemma {:induction false} ActionHitsMember(address: string, actions: seq<string>, kind: string, a: string)
    ensures a in ActionHits(address, actions, kind) <==> a == address && kind in actions
    decreases |actions|
  {
    if actions != [] {
      var init := actions[..|actions| - 1];
      ActionHitsMember(address, init, kind, a);
      assert actions == init + [actions[|actions| - 1]];
    }
  }

  /**
   * The reported action lists are non-empty, come from the five kinds in
   * their fixed order, and hold each kind's addresses.
   */
  lemma ActionListsShape(changes: seq<ResourceChange>)
    ensures forall i :: 0 <= i < |ActionLists(changes)| ==>
              ActionLists(changes)[i].1 != [] &&
              ActionLists(changes)[i].0 in ActionKinds &&
              ActionLists(changes)[i].1 == AddressesFor(changes, ActionLists(changes)[i].0)
    ensures forall k :: k in ActionKinds && AddressesFor(changes, k) != [] ==>
              exists i :: 0 <= i < |ActionLists(changes)| && ActionLists(changes)[i].0 == k
    ensures IsSubseq(Map(ActionLists(changes), Key), ActionKinds)
  {
    var all := seq(|ActionKinds|, i requires 0 <= i < |ActionKinds| => (ActionKinds[i], AddressesFor(changes, ActionKinds[i])));
    var kept := ActionLists(changes);
    forall i | 0 <= i < |kept|
      ensures kept[i].1 != [] && kept[i].0 in ActionKinds && kept[i].1 == AddressesFor(changes, kept[i].0)
    {
      assert kept[i] in all;
    }
    forall k | k in ActionKinds && AddressesFor(changes, k) != []
      ensures exists i :: 0 <= i < |kept| && kept[i].0 == k
    {
      var j :| 0 <= j < |ActionKinds| && ActionKinds[j] == k;
      assert all[j] in kept;
    }
    FilterIsSubseq(all, HasAddresses);
    SubseqMap(kept, all, Key);
    assert Map(all, Key) == ActionKinds by {
      MapEach(all, Key);
    }
  }

  function Key(kv: (string, seq<string>)): string {
    kv.0
  }

  // ================================================================ find_canon_matches

  /** One canon finding: the resource type whose search found it, and the search hit. */
  datatype Finding = Finding(triggeredBy: string, source: string, entry: Entry)

  /** The diagnostic fields a match reports: severity (default "unknown"), summary and address (default ""). */
  datatype DiagnosticSummary = DiagnosticSummary(severity: string, summary: string, address: string)

  datatype DiagnosticMatch = DiagnosticMatch(diagnostic: DiagnosticSummary, canonMatches: seq<Entry>)

  /** The result of `find_canon_matches`. */
  datatype CanonMatches = CanonMatches(findings: seq<Finding>, diagnosticMatches: seq<DiagnosticMatch>)

  /** The hits of one search, each tagged with the type searched for. */
  function Found(t: string, hits: seq<Hit>): (r: seq<Finding>)
    ensures |r| == |hits|
    ensures forall i :: 0 <= i < |r| ==> r[i] == Finding(t, hits[i].source, hits[i].entry)
  {
    seq(|hits|, i requires 0 <= i < |hits| => Finding(t, hits[i].source, hits[i].entry))
  }

  /** The types `find_canon_matches` searches for: the distinct types (an absent one reads as ""), sorted. */
  function SearchTypes(changes: seq<ResourceChange>): seq<string> {
    SortStrings(DistinctTypes(changes, ""))
  }

  /** `search_by_resource` over the three canon files, as a function of the resource type. */
  function ResourceSearch(sigs: CanonFile, sg: CanonFile, limits: CanonFile): string -> seq<Hit> {
    t => if ResourceFilesWellFormed(sigs, sg, limits) then ResourceHits(Lower(t), sigs, sg, limits) else []
  }

  /** Every search result in the order the loop meets it; the empty type is not searched. */
  function Candidates(types: seq<string>, search: string -> seq<Hit>): seq<Finding>
    decreases |types|
  {
    if types == [] then []
    else
      var t := types[|types| - 1];
      Candidates(types[..|types| - 1], search) + (if t == "" then [] else Found(t, search(t)))
  }

  function EntriesOf(fs: seq<Finding>): set<Entry> {
    set i | 0 <= i < |fs| :: fs[i].entry
  }

  lemma EntriesOfSnoc(fs: seq<Finding>, f: Finding)
    ensures EntriesOf(fs + [f]) == EntriesOf(fs) + {f.entry}
  {
    var gs := fs + [f];
    assert gs[|fs|] == f;
    forall e | e in EntriesOf(fs)
      ensures e in EntriesOf(gs)
    {
      var i :| 0 <= i < |fs| && fs[i].entry == e;
      assert gs[i] == fs[i];
    }
  }

  /**
   * The candidates whose entry was not seen before, in order: the
   * `seen_entries` set keyed on `json.dumps(entry, sort_keys=True)`, which
   * tells entries apart exactly when they differ.
   */
  function FirstPerEntry(cands: seq<Finding>): (r: seq<Finding>)
    ensures EntriesOf(r) == EntriesOf(cands)
    ensures forall i, j :: 0 <= i < j < |r| ==> r[i].entry != r[j].entry
    decreases |cands|
  {
    if cands == [] then []
    else
      var init := cands[..|cands| - 1];
      var c := cands[|cands| - 1];
      var prev := FirstPerEntry(init);
      EntriesOfSnoc(init, c);
      EntriesOfSnoc(prev, c);
      assert cands == init + [c];
      if c.entry in EntriesOf(prev) then prev else prev + [c]
  }

  /** The findings `find_canon_matches` reports for the plan. */
  function CanonFindings(changes: seq<ResourceChange>, search: string -> seq<Hit>): seq<Finding> {
    FirstPerEntry(Candidates(SearchTypes(changes), search))
  }

  /** `f"{summary} {detail}"` with both defaulting to "". */
  function ErrorText(d: Diagnostic): string {
    d.summary.GetOr("") + " " + d.detail.GetOr("")
  }

  function Summarize(d: Diagnostic): DiagnosticSummary {
    DiagnosticSummary(d.severity.GetOr("unknown"), d.summary.GetOr(""), d.address.GetOr(""))
  }

  /** The signatures `match_error` returns for the diagnostic. */
  function SignaturesFor(re: RegexEngine, sigs: seq<Entry>, d: Diagnostic): seq<Entry> {
    Filter(sigs, MatchesText(re, ErrorText(d)))
  }

  /** `match_error` on a diagnostic's text, as a function of the diagnostic. */
  function Matcher(re: RegexEngine, sigs: seq<Entry>): Diagnostic -> seq<Entry> {
    d => SignaturesFor(re, sigs, d)
  }

  /** One entry per diagnostic that `matcher` finds signatures for, in plan order. */
  function DiagnosticMatches(diags: seq<Diagnostic>, matcher: Diagnostic -> seq<Entry>): seq<DiagnosticMatch>
    decreases |diags|
  {
    if diags == [] then []
    else
      var d := diags[|diags| - 1];
      var m := matcher(d);
      DiagnosticMatches(diags[..|diags| - 1], matcher) + (if m != [] then [DiagnosticMatch(Summarize(d), m)] else [])
  }

  /** Some change has a non-empty type, so `find_canon_matches` calls `search_by_resource`. */
  predicate SearchesResources(changes: seq<ResourceChange>) {
    exists i :: 0 <= i < |changes| && changes[i].rtype.GetOr("") != ""
  }

  /**
   * `find_canon_matches`: every search result for the sorted distinct
   * resource types, the first time its entry turns up, and every diagnostic
   * that at least one error signature matches. The error-signatures file
   * is the one the searches read. The canon files need their well-formed
   * shape only when the code reads them: the resource files when some type
   * is searched, the signatures' patterns when there is a diagnostic.
   */
  method FindCanonMatches(plan: Plan, re: RegexEngine, sigs: CanonFile, sg: CanonFile, limits: CanonFile)
    returns (r: CanonMatches)
    requires SearchesResources(plan.resourceChanges) ==> ResourceFilesWellFormed(sigs, sg, limits)
    requires plan.diagnostics != [] ==> StrFieldsIn(sigs, "signatures", "error_pattern")
    ensures r.findings == CanonFindings(plan.resourceChanges, ResourceSearch(sigs, sg, limits))
    ensures r.diagnosticMatches == DiagnosticMatches(plan.diagnostics, Matcher(re, FileList(sigs, "signatures")))
  {
    var types := CollectTypes(plan.resourceChanges);
    var sorted := SortStrings(types);
    SortStringsMembers(types);
    if SearchesSome(sorted) {
      var i :| 0 <= i < |sorted| && sorted[i] != "";
      assert sorted[i] in types;
    }
    var findings := SearchSorted(sorted, sigs, sg, limits);
    var matches := [];
    if plan.diagnostics != [] {
      matches := MatchDiagnostics(plan.diagnostics, re, FileList(sigs, "signatures"));
    }
    r := CanonMatches(findings, matches);
  }

  /** The loop collecting `resource_types`: each change's type (absent reads as empty), once. */
  method CollectTypes(changes: seq<ResourceChange>) returns (types: seq<string>)
    ensures types == DistinctTypes(changes, "")
  {
    types := [];
    var n := 0;
    while n < |changes|
      invariant 0 <= n <= |changes|
      invariant types == DistinctTypes(changes[..n], "")
    {
      PrefixSnoc(changes, n);
      types := NoteType(types, changes[..n], changes[n], "");
      n := n + 1;
    }
    assert changes[..n] == changes;
  }

  /** The loop over the sorted types: search each non-empty one and keep the results whose entry is new. */
  method SearchSorted(sorted: seq<string>, sigs: CanonFile, sg: CanonFile, limits: CanonFile) returns (findings: seq<Finding>)
    requires SearchesSome(sorted) ==> ResourceFilesWellFormed(sigs, sg, limits)
    ensures findings == FirstPerEntry(Candidates(sorted, ResourceSearch(sigs, sg, limits)))
  {
    ghost var search := ResourceSearch(sigs, sg, limits);
    findings := [];
    var seen: set<Entry> := {};
    var i := 0;
    while i < |sorted|
      invariant 0 <= i <= |sorted|
      invariant findings == FirstPerEntry(Candidates(sorted[..i], search))
      invariant seen == EntriesOf(findings)
    {
      var t := sorted[i];
      ghost var before := Candidates(sorted[..i], search);
      CandidatesStep(sorted, i, search);
      if t != "" {
        SearchesAt(sorted, i);
        var results := SearchByResource(t, sigs, sg, limits);
        assert results == search(t);
        findings, seen := KeepUnseen(findings, seen, before, t, results);
      }
      i := i + 1;
    }
    assert sorted[..i] == sorted;
  }

  /** Some type in the list is non-empty, so the loop calls `search_by_resource`. */
  predicate SearchesSome(types: seq<string>) {
    exists i :: 0 <= i < |types| && types[i] != ""
  }

  lemma SearchesAt(types: seq<string>, i: int)
    requires 0 <= i < |types| && types[i] != ""
    ensures SearchesSome(types)
  {
  }

  lemma CandidatesStep(types: seq<string>, i: int, search: string -> seq<Hit>)
    requires 0 <= i < |types|
    ensures types[i] == "" ==> Candidates(types[..i + 1], search) == Candidates(types[..i], search)
    ensures types[i] != "" ==> Candidates(types[..i + 1], search) == Candidates(types[..i], search) + Found(types[i], search(types[i]))
  {
    PrefixPrefix(types, i);
    assert Candidates(types[..i], search) + [] == Candidates(types[..i], search);
  }

  /** The loop over one search's results: a result whose entry was seen is dropped. */
  method KeepUnseen(findings: seq<Finding>, seen: set<Entry>, ghost before: seq<Finding>, t: string, results: seq<Hit>)
    returns (out: seq<Finding>, outSeen: set<Entry>)
    requires findings == FirstPerEntry(before)
    requires seen == EntriesOf(findings)
    ensures out == FirstPerEntry(before + Found(t, results))
    ensures outSeen == EntriesOf(out)
  {
    out, outSeen := findings, seen;
    var m := 0;
    assert before + Found(t, results[..0]) == before;
    while m < |results|
      invariant 0 <= m <= |results|
      invariant out == FirstPerEntry(before + Found(t, results[..m]))
      invariant outSeen == EntriesOf(out)
    {
      var hit := results[m];
      var f := Finding(t, hit.source, hit.entry);
      assert before + Found(t, results[..m + 1]) == (before + Found(t, results[..m])) + [f];
      if hit.entry !in outSeen {
        EntriesOfSnoc(out, f);
        outSeen := outSeen + {hit.entry};
        out := out + [f];
      }
      m := m + 1;
    }
    assert results[..m] == results;
  }

  /** The loop over diagnostics: `match_error` on each one's text. */
  method MatchDiagnostics(diags: seq<Diagnostic>, re: RegexEngine, sigs: seq<Entry>) returns (out: seq<DiagnosticMatch>)
    requires forall i :: 0 <= i < |sigs| ==> HasStr(sigs[i], "error_pattern")
    ensures out == DiagnosticMatches(diags, Matcher(re, sigs))
  {
    out := [];
    var n := 0;
    while n < |diags|
      invariant 0 <= n <= |diags|
      invariant out == DiagnosticMatches(diags[..n], Matcher(re, sigs))
    {
      var d := diags[n];
      var matches := MatchError(re, ErrorText(d), sigs);
      assert matches == Matcher(re, sigs)(d);
      PrefixPrefix(diags, n);
      if matches != [] {
        out := out + [DiagnosticMatch(Summarize(d), matches)];
      }
      n := n + 1;
    }
    assert diags[..n] == diags;
  }

  /** Every finding is the first candidate with its entry. */
  lemma {:induction false} FirstPerEntryIsFirst(cands: seq<Finding>, k: int)
    requires 0 <= k < |FirstPerEntry(cands)|
    ensures exists i :: 0 <= i < |cands| && cands[i] == FirstPerEntry(cands)[k] &&
                        forall j :: 0 <= j < i ==> cands[j].entry != cands[i].entry
    decreases |cands|
  {
    var init := cands[..|cands| - 1];
    var c := cands[|cands| - 1];
    var prev := FirstPerEntry(init);
    assert forall j :: 0 <= j < |init| ==> init[j] == cands[j];
    if k < |prev| {
      FirstPerEntryIsFirst(init, k);
      var i :| 0 <= i < |init| && init[i] == prev[k] && forall j :: 0 <= j < i ==> init[j].entry != init[i].entry;
      assert cands[i] == FirstPerEntry(cands)[k];
    } else {
      assert FirstPerEntry(cands) == prev + [c];
      forall j | 0 <= j < |cands| - 1
        ensures cands[j].entry != c.entry
      {
        assert cands[j].entry in EntriesOf(init);
      }
    }
  }

  /** The candidates come from non-empty searched types, in the order of the types. */
  lemma {:induction false} CandidatesFollowTypes(types: seq<string>, search: string -> seq<Hit>)
    ensures forall i :: 0 <= i < |Candidates(types, search)| ==>
              Candidates(types, search)[i].triggeredBy in types &&
              Candidates(types, search)[i].triggeredBy != ""
    ensures SortedStr(types) ==>
              forall i, j :: 0 <= i < j < |Candidates(types, search)| ==>
                StrLe(Candidates(types, search)[i].triggeredBy, Candidates(types, search)[j].triggeredBy)
    decreases |types|
  {
    if types != [] {
      var init := types[..|types| - 1];
      var t := types[|types| - 1];
      CandidatesFollowTypes(init, search);
      var cs := Candidates(types, search);
      var pre := Candidates(init, search);
      assert forall i :: 0 <= i < |pre| ==> cs[i] == pre[i];
      assert forall i :: |pre| <= i < |cs| ==> cs[i].triggeredBy == t;
      forall x | x in init
        ensures x in types
      {
        var k :| 0 <= k < |init| && init[k] == x;
        assert types[k] == x;
      }
      if SortedStr(types) {
        assert SortedStr(init);
        StrLeTotal(t, t);
        forall i, j | 0 <= i < j < |cs|
          ensures StrLe(cs[i].triggeredBy, cs[j].triggeredBy)
        {
          if j < |pre| {
          } else if i >= |pre| {
          } else {
            var k :| 0 <= k < |init| && init[k] == cs[i].triggeredBy;
            assert types[k] == init[k];
          }
        }
      }
    }
  }

  /**
   * When several searched types turn up the same entry, the finding names
   * the type that sorts first: `find_canon_matches` walks the types in
   * sorted order and keeps the first sighting.
   */
  lemma EarliestTypeWins(changes: seq<ResourceChange>, search: string -> seq<Hit>, k: int, c: Finding)
    requires 0 <= k < |CanonFindings(changes, search)|
    requires c in Candidates(SearchTypes(changes), search)
    requires c.entry == CanonFindings(changes, search)[k].entry
    ensures StrLe(CanonFindings(changes, search)[k].triggeredBy, c.triggeredBy)
  {
    var cands := Candidates(SearchTypes(changes), search);
    var f := CanonFindings(changes, search)[k];
    FirstPerEntryIsFirst(cands, k);
    var i :| 0 <= i < |cands| && cands[i] == f && forall j :: 0 <= j < i ==> cands[j].entry != cands[i].entry;
    var j :| 0 <= j < |cands| && cands[j] == c;
    CandidatesFollowTypes(SearchTypes(changes), search);
    if j == i {
      StrLeTotal(f.triggeredBy, f.triggeredBy);
    }
  }

  /** Every entry any search turned up is reported exactly once. */
  lemma FindingsCoverCandidates(changes: seq<ResourceChange>, search: string -> seq<Hit>, c: Finding)
    requires c in Candidates(SearchTypes(changes), search)
    ensures exists k :: 0 <= k < |CanonFindings(changes, search)| &&
                        CanonFindings(changes, search)[k].entry == c.entry
    ensures forall k, l :: 0 <= k < l < |CanonFindings(changes, search)| ==>
              CanonFindings(changes, search)[k].entry != CanonFindings(changes, search)[l].entry
  {
    var cands := Candidates(SearchTypes(changes), search);
    var fs := FirstPerEntry(cands);
    var i :| 0 <= i < |cands| && cands[i] == c;
    assert c.entry in EntriesOf(cands);
    assert c.entry in EntriesOf(fs);
    assert fs == CanonFindings(changes, search);
    var k :| 0 <= k < |fs| && fs[k].entry == c.entry;
  }

  /** A candidate is a hit of the search for a non-empty type of the plan, tagged with that type. */
  lemma {:induction false} CandidateIsSearchHit(types: seq<string>, search: string -> seq<Hit>, c: Finding)
    ensures c in Candidates(types, search) <==>
              c.triggeredBy in types && c.triggeredBy != "" && Hit(c.source, c.entry) in search(c.triggeredBy)
    decreases |types|
  {
    if types != [] {
      var init := types[..|types| - 1];
      var t := types[|types| - 1];
      CandidateIsSearchHit(init, search, c);
      assert types == init + [t];
      if t != "" {
        var hits := search(t);
        if c.triggeredBy == t && Hit(c.source, c.entry) in hits {
          var k :| 0 <= k < |hits| && hits[k] == Hit(c.source, c.entry);
          assert Found(t, hits)[k] == c;
        }
      }
    }
  }

  function HasSignatures(matcher: Diagnostic -> seq<Entry>): Diagnostic -> bool {
    d => matcher(d) != []
  }

  function MatchOf(matcher: Diagnostic -> seq<Entry>): Diagnostic -> DiagnosticMatch {
    d => DiagnosticMatch(Summarize(d), matcher(d))
  }

  /** The diagnostic matches are the matched diagnostics, in order, each with every signature that matches it. */
  lemma {:induction false} DiagnosticMatchesAreMatchedDiagnostics(diags: seq<Diagnostic>, matcher: Diagnostic -> seq<Entry>)
    ensures DiagnosticMatches(diags, matcher) == Map(Filter(diags, HasSignatures(matcher)), MatchOf(matcher))
    decreases |diags|
  {
    if diags != [] {
      var init := diags[..|diags| - 1];
      var d := diags[|diags| - 1];
      var p := HasSignatures(matcher);
      var f := MatchOf(matcher);
      DiagnosticMatchesAreMatchedDiagnostics(init, matcher);
      assert diags == init + [d];
      FilterSnoc(init, d, p);
      if p(d) {
        MapConcat(Filter(init, p), [d], f);
        MapSingle(d, f);
      } else {
        assert DiagnosticMatches(diags, matcher) == DiagnosticMatches(init, matcher) + [];
        assert Filter(diags, p) == Filter(init, p) + [];
        assert DiagnosticMatches(init, matcher) + [] == DiagnosticMatches(init, matcher);
        assert Filter(init, p) + [] == Filter(init, p);
      }
    }
  }

  // ================================================================ check_provider_compat

  datatype CompatWarning = CompatWarning(terraformVersion: string, providerConstraint: string, compatEntry: Entry)

  /** `entry.get("status") == "breaking"` */
  predicate IsBreaking(e: Entry) {
    Get(e, "status", Null) == Str("breaking")
  }

  /** A loaded compat file lists objects, and each breaking one has a string (or no) `terraform_version`. */
  predicate CompatFileWellFormed(compat: CanonFile) {
    compat.Some? ==> (HasObjects(compat.value, "compatibility") &&
      forall e :: e in ObjectsField(compat.value, "compatibility") && IsBreaking(e) ==> HasStr(e, "terraform_version"))
  }

  /** The entry is breaking and the Terraform version lies in its range. */
  predicate BreaksVersion(tf: string, e: Entry) {
    IsBreaking(e) && HasStr(e, "terraform_version") && InRange(tf, StrField(e, "terraform_version"))
  }

  function BreaksFilter(tf: string): Entry -> bool {
    e => BreaksVersion(tf, e)
  }

  /** A provider the check looks at: its key names AWS and it has a version constraint. */
  predicate IsCheckedProvider(p: ProviderConfig) {
    IsSubstring("aws", Lower(p.key)) && p.versionConstraint.GetOr("") != ""
  }

  function Warnings(tf: string, constraint: string, entries: seq<Entry>): (r: seq<CompatWarning>)
    ensures |r| == |entries|
    ensures forall i :: 0 <= i < |r| ==> r[i] == CompatWarning(tf, constraint, entries[i])
  {
    seq(|entries|, i requires 0 <= i < |entries| => CompatWarning(tf, constraint, entries[i]))
  }

  lemma WarningsSnoc(tf: string, constraint: string, entries: seq<Entry>, e: Entry)
    ensures Warnings(tf, constraint, entries + [e]) == Warnings(tf, constraint, entries) + [CompatWarning(tf, constraint, e)]
  {
  }

  lemma WarningsMember(tf: string, constraint: string, entries: seq<Entry>, w: CompatWarning)
    ensures w in Warnings(tf, constraint, entries) <==>
              w.terraformVersion == tf && w.providerConstraint == constraint && w.compatEntry in entries
  {
    if w.terraformVersion == tf && w.providerConstraint == constraint && w.compatEntry in entries {
      var k :| 0 <= k < |entries| && entries[k] == w.compatEntry;
      assert Warnings(tf, constraint, entries)[k] == w;
    }
  }

  /**
   * For each checked provider in order, one warning per entry of `kept`, the
   * breaking entries whose range holds the version (the same list for every provider).
   */
  function ProviderWarnings(providers: seq<ProviderConfig>, tf: string, kept: seq<Entry>): seq<CompatWarning>
    decreases |providers|
  {
    if providers == [] then []
    else
      var p := providers[|providers| - 1];
      ProviderWarnings(providers[..|providers| - 1], tf, kept) +
      (if IsCheckedProvider(p) then Warnings(tf, p.versionConstraint.GetOr(""), kept) else [])
  }

  /** What `check_provider_compat` returns: nothing without the file or without a Terraform version. */
  function CompatWarnings(plan: Plan, compat: CanonFile): seq<CompatWarning>
  {
    if compat.None? then []
    else
      var tf := plan.terraformVersion.GetOr("");
      if tf == "" then [] else ProviderWarnings(plan.providerConfig, tf, Filter(FileList(compat, "compatibility"), BreaksFilter(tf)))
  }

  /** Some provider is a checked AWS provider. */
  predicate HasCheckedProvider(providers: seq<ProviderConfig>) {
    exists i :: 0 <= i < |providers| && IsCheckedProvider(providers[i])
  }

  /**
   * `check_provider_compat` iterates the compat entries only when the plan
   * has a Terraform version and a checked AWS provider.
   */
  predicate ReadsCompatEntries(plan: Plan) {
    plan.terraformVersion.GetOr("") != "" && HasCheckedProvider(plan.providerConfig)
  }

  /**
   * `check_provider_compat`: for every provider whose key contains "aws"
   * (any case) and that has a version constraint, every breaking compat
   * entry whose `terraform_version` range holds the plan's Terraform version.
   */
  method CheckProviderCompat(plan: Plan, compat: CanonFile) returns (warnings: seq<CompatWarning>)
    requires ReadsCompatEntries(plan) ==> CompatFileWellFormed(compat)
    ensures warnings == CompatWarnings(plan, compat)
  {
    warnings := [];
    if compat.None? {
      return;
    }
    var entries := FileList(compat, "compatibility");
    var tf := plan.terraformVersion.GetOr("");
    if tf == "" {
      return;
    }
    var providers := plan.providerConfig;
    var n := 0;
    while n < |providers|
      invariant 0 <= n <= |providers|
      invariant warnings == ProviderWarnings(providers[..n], tf, Filter(entries, BreaksFilter(tf)))
    {
      var p := providers[n];
      PrefixPrefix(providers, n);
      var constraint := p.versionConstraint.GetOr("");
      if IsSubstring("aws", Lower(p.key)) && constraint != "" {
        assert IsCheckedProvider(providers[n]);
        warnings := AppendBreaking(warnings, tf, constraint, entries);
      } else {
        assert warnings + [] == warnings;
      }
      n := n + 1;
    }
    assert providers[..n] == providers;
  }

  /** The loop over compat entries for one provider. */
  method AppendBreaking(warnings: seq<CompatWarning>, tf: string, constraint: string, entries: seq<Entry>)
    returns (out: seq<CompatWarning>)
    requires forall i :: 0 <= i < |entries| && IsBreaking(entries[i]) ==> HasStr(entries[i], "terraform_version")
    ensures out == warnings + Warnings(tf, constraint, Filter(entries, BreaksFilter(tf)))
  {
    var found: seq<CompatWarning> := [];
    var n := 0;
    while n < |entries|
      invariant 0 <= n <= |entries|
      invariant found == Warnings(tf, constraint, Filter(entries[..n], BreaksFilter(tf)))
    {
      var entry := entries[n];
      var breaks := Breaks(tf, entry);
      BreakingStep(tf, constraint, entries, n);
      if breaks {
        found := found + [CompatWarning(tf, constraint, entry)];
      }
      n := n + 1;
    }
    assert entries[..n] == entries;
    out := warnings + found;
  }

  /** The test on one compat entry: breaking, and its range holds the version. */
  method Breaks(tf: string, entry: Entry) returns (b: bool)
    requires IsBreaking(entry) ==> HasStr(entry, "terraform_version")
    ensures b == BreaksFilter(tf)(entry)
  {
    b := false;
    if IsBreaking(entry) {
      b := VersionInRange(tf, StrField(entry, "terraform_version"));
    }
  }

  lemma BreakingStep(tf: string, constraint: string, entries: seq<Entry>, n: int)
    requires 0 <= n < |entries|
    ensures Warnings(tf, constraint, Filter(entries[..n + 1], BreaksFilter(tf))) ==
              Warnings(tf, constraint, Filter(entries[..n], BreaksFilter(tf))) +
              (if BreaksFilter(tf)(entries[n]) then [CompatWarning(tf, constraint, entries[n])] else [])
  {
    PrefixSnoc(entries, n);
    WarningsFilterSnoc(tf, constraint, entries[..n], entries[n], BreaksFilter(tf));
  }

  lemma WarningsFilterSnoc(tf: string, constraint: string, s: seq<Entry>, e: Entry, p: Entry -> bool)
    ensures Warnings(tf, constraint, Filter(s + [e], p)) ==
              Warnings(tf, constraint, Filter(s, p)) + (if p(e) then [CompatWarning(tf, constraint, e)] else [])
  {
    FilterSnoc(s, e, p);
    WarningsSnoc(tf, constraint, Filter(s, p), e);
    assert Filter(s, p) + [] == Filter(s, p);
  }

  /** Some checked provider has constraint `c`. */
  predicate OffersConstraint(providers: seq<ProviderConfig>, c: string) {
    exists i :: 0 <= i < |providers| && IsCheckedProvider(providers[i]) && providers[i].versionConstraint.GetOr("") == c
  }

  lemma OffersConstraintSnoc(providers: seq<ProviderConfig>, c: string)
    requires providers != []
    ensures OffersConstraint(providers, c) <==>
              OffersConstraint(providers[..|providers| - 1], c) ||
              (IsCheckedProvider(providers[|providers| - 1]) && providers[|providers| - 1].versionConstraint.GetOr("") == c)
  {
    var init := providers[..|providers| - 1];
    if OffersConstraint(providers, c) {
      var i :| 0 <= i < |providers| && IsCheckedProvider(providers[i]) && providers[i].versionConstraint.GetOr("") == c;
      if i < |init| {
        assert init[i] == providers[i];
      }
    }
    if OffersConstraint(init, c) {
      var i :| 0 <= i < |init| && IsCheckedProvider(init[i]) && init[i].versionConstraint.GetOr("") == c;
      assert providers[i] == init[i];
    }
  }

  /** A warning is reported exactly for a checked provider's constraint paired with a kept entry. */
  lemma {:induction false} ProviderWarningsMember(providers: seq<ProviderConfig>, tf: string, kept: seq<Entry>, w: CompatWarning)
    ensures w in ProviderWarnings(providers, tf, kept) <==>
              w.terraformVersion == tf && w.compatEntry in kept && OffersConstraint(providers, w.providerConstraint)
    decreases |providers|
  {
    if providers != [] {
      var init := providers[..|providers| - 1];
      var p := providers[|providers| - 1];
      ProviderWarningsMember(init, tf, kept, w);
      WarningsMember(tf, p.versionConstraint.GetOr(""), kept, w);
      OffersConstraintSnoc(providers, w.providerConstraint);
    }
  }

  /**
   * A warning is reported exactly for a checked AWS provider's non-empty
   * constraint paired with a breaking entry of the file whose range holds the
   * plan's Terraform version.
   */
  lemma CompatWarningsMember(plan: Plan, compat: CanonFile, w: CompatWarning)
    ensures w in CompatWarnings(plan, compat) <==>
              compat.Some? && plan.terraformVersion.GetOr("") != "" &&
              w.terraformVersion == plan.terraformVersion.GetOr("") &&
              w.compatEntry in FileList(compat, "compatibility") && BreaksVersion(w.terraformVersion, w.compatEntry) &&
              exists i :: 0 <= i < |plan.providerConfig| && IsCheckedProvider(plan.providerConfig[i]) &&
                          plan.providerConfig[i].versionConstraint.GetOr("") == w.providerConstraint
  {
    if compat.Some? && plan.terraformVersion.GetOr("") != "" {
      var tf := plan.terraformVersion.GetOr("");
      var entries := FileList(compat, "compatibility");
      var kept := Filter(entries, BreaksFilter(tf));
      ProviderWarningsMember(plan.providerConfig, tf, kept, w);
      assert w.compatEntry in kept <==> w.compatEntry in entries && BreaksFilter(tf)(w.compatEntry);
    }
  }

  // ================================================================ check_limit_warnings

  datatype LimitWarning = LimitWarning(service: Value, limit: Value, defaultValue: Value, terraformImpact: Value)

  /** The resource types whose creates `check_limit_warnings` relates to an AWS service. */
  const ServiceMap: map<string, string> := map[
    "aws_vpc" := "ec2",
    "aws_subnet" := "ec2",
    "aws_security_group" := "ec2",
    "aws_instance" := "ec2",
    "aws_eip" := "ec2",
    "aws_s3_bucket" := "s3",
    "aws_iam_role" := "iam",
    "aws_iam_policy" := "iam",
    "aws_iam_user" := "iam",
    "aws_db_instance" := "rds",
    "aws_rds_cluster" := "rds",
    "aws_ecs_cluster" := "ecs",
    "aws_ecs_service" := "ecs",
    "aws_ecs_task_definition" := "ecs",
    "aws_lambda_function" := "lambda",
    "aws_dynamodb_table" := "dynamodb",
    "aws_sqs_queue" := "sqs",
    "aws_sns_topic" := "sns",
    "aws_lb" := "elbv2",
    "aws_alb" := "elbv2"]

  /** The number of changes of type `t` (absent reads as "") whose actions include "create". */
  function CreateCount(changes: seq<ResourceChange>, t: string): nat
    decreases |changes|
  {
    if changes == [] then 0
    else
      var rc := changes[|changes| - 1];
      CreateCount(changes[..|changes| - 1], t) + (if "create" in rc.actions && rc.rtype.GetOr("") == t then 1 else 0)
  }

  /** The types with at least one create: the keys of `create_counts`. */
  function CreatedTypes(changes: seq<ResourceChange>): set<string>
    decreases |changes|
  {
    if changes == [] then {}
    else
      var rc := changes[|changes| - 1];
      CreatedTypes(changes[..|changes| - 1]) + (if "create" in rc.actions then {rc.rtype.GetOr("")} else {})
  }

  /** The services of the mapped types among `types`. */
  function ServicesOf(types: set<string>): set<string> {
    set t | t in types && t in ServiceMap && ServiceMap[t] != "" :: ServiceMap[t]
  }

  function ServicesCreating(changes: seq<ResourceChange>): set<string> {
    ServicesOf(CreatedTypes(changes))
  }

  /** `limit.get("service", "") in services_creating` */
  predicate LimitApplies(services: set<string>, limit: Entry) {
    var v := Get(limit, "service", Str(""));
    v.Str? && v.s in services
  }

  function ApplyFilter(services: set<string>): Entry -> bool {
    l => LimitApplies(services, l)
  }

  /** The keys `check_limit_warnings` reads with `limit[...]`. */
  predicate HasWarningKeys(limit: Entry) {
    "service" in limit && "limit_name" in limit && "default_value" in limit && "terraform_impact" in limit
  }

  function ToLimitWarning(limit: Entry): LimitWarning {
    LimitWarning(Get(limit, "service", Null), Get(limit, "limit_name", Null),
                 Get(limit, "default_value", Null), Get(limit, "terraform_impact", Null))
  }

  /**
   * Every limit's service can be looked up in a set, and every limit whose
   * service is being created has the keys the warning reads.
   */
  predicate LimitsFileWellFormed(limits: CanonFile, services: set<string>) {
    limits.Some? ==> (HasObjects(limits.value, "limits") &&
      forall l :: l in ObjectsField(limits.value, "limits") ==>
        Hashable(Get(l, "service", Str(""))) &&
        (LimitApplies(services, l) ==> HasWarningKeys(l)))
  }

  /** What `check_limit_warnings` returns: the limits of the created services, in file order. */
  function LimitWarnings(changes: seq<ResourceChange>, limits: CanonFile): seq<LimitWarning>
    requires limits.Some? ==> HasObjects(limits.value, "limits")
  {
    if limits.None? then []
    else Map(Filter(FileList(limits, "limits"), ApplyFilter(ServicesCreating(changes))), ToLimitWarning)
  }

  /**
   * `check_limit_warnings`: count the creates per type, map the created
   * types to services, and report each limit whose service is one of them.
   */
  method CheckLimitWarnings(plan: Plan, limits: CanonFile) returns (warnings: seq<LimitWarning>)
    requires LimitsFileWellFormed(limits, ServicesCreating(plan.resourceChanges))
    ensures warnings == LimitWarnings(plan.resourceChanges, limits)
  {
    warnings := [];
    if limits.None? {
      return;
    }
    var createCounts := CountCreates(plan.resourceChanges);
    var services := MappedServices(createCounts.Keys);
    warnings := MatchingLimits(FileList(limits, "limits"), services);
  }

  /** The loop counting creates per resource type. */
  method CountCreates(changes: seq<ResourceChange>) returns (createCounts: map<string, nat>)
    ensures createCounts.Keys == CreatedTypes(changes)
    ensures forall t :: t in createCounts ==> createCounts[t] == CreateCount(changes, t)
  {
    createCounts := map[];
    var n := 0;
    while n < |changes|
      invariant 0 <= n <= |changes|
      invariant createCounts.Keys == CreatedTypes(changes[..n])
      invariant forall t :: t in createCounts ==> createCounts[t] == CreateCount(changes[..n], t)
    {
      var rc := changes[n];
      PrefixPrefix(changes, n);
      CreatedTypesMember(changes[..n], rc.rtype.GetOr(""));
      if "create" in rc.actions {
        var rtype := rc.rtype.GetOr("");
        createCounts := createCounts[rtype := (if rtype in createCounts then createCounts[rtype] else 0) + 1];
      }
      n := n + 1;
    }
    assert changes[..n] == changes;
  }

  /** The loop over the limits, reporting those whose service is being created. */
  method MatchingLimits(limitList: seq<Entry>, services: set<string>) returns (warnings: seq<LimitWarning>)
    requires forall i :: 0 <= i < |limitList| && LimitApplies(services, limitList[i]) ==>
               HasWarningKeys(limitList[i])
    ensures warnings == Map(Filter(limitList, ApplyFilter(services)), ToLimitWarning)
  {
    warnings := [];
    var m := 0;
    while m < |limitList|
      invariant 0 <= m <= |limitList|
      invariant warnings == Map(Filter(limitList[..m], ApplyFilter(services)), ToLimitWarning)
    {
      var limit := limitList[m];
      MapFilterPrefix(limitList, m, ApplyFilter(services), ToLimitWarning);
      if LimitApplies(services, limit) {
        // `limit[...]`: a missing key would be a `KeyError` in the source.
        warnings := warnings + [LimitWarning(limit["service"], limit["limit_name"], limit["default_value"], limit["terraform_impact"])];
      }
      m := m + 1;
    }
    assert limitList[..m] == limitList;
  }

  /** The loop over `create_counts`: the service of each mapped type, in any order. */
  method MappedServices(types: set<string>) returns (services: set<string>)
    ensures services == ServicesOf(types)
  {
    services := {};
    var rest := types;
    while rest != {}
      invariant rest <= types
      invariant services == ServicesOf(types - rest)
      decreases rest
    {
      var t :| t in rest;
      ServicesOfAdd(types - rest, t);
      assert types - (rest - {t}) == (types - rest) + {t};
      var service := if t in ServiceMap then ServiceMap[t] else "";
      if service != "" {
        services := services + {service};
      }
      rest := rest - {t};
    }
    assert types - rest == types;
  }

  lemma ServicesOfAdd(types: set<string>, t: string)
    ensures ServicesOf(types + {t}) == ServicesOf(types) + (if t in ServiceMap && ServiceMap[t] != "" then {ServiceMap[t]} else {})
  {
  }

  /** A type has a create exactly when some change of that type lists "create". */
  lemma {:induction false} CreatedTypesMember(changes: seq<ResourceChange>, t: string)
    ensures t in CreatedTypes(changes) <==> CreateCount(changes, t) > 0
    ensures t in CreatedTypes(changes) <==>
              exists i :: 0 <= i < |changes| && "create" in changes[i].actions && changes[i].rtype.GetOr("") == t
    decreases |changes|
  {
    if changes != [] {
      var init := changes[..|changes| - 1];
      CreatedTypesMember(init, t);
      assert forall i :: 0 <= i < |init| ==> init[i] == changes[i];
    }
  }

  /** A service is being created exactly when some change creates a type that maps to it. */
  lemma ServicesCreatingMember(changes: seq<ResourceChange>, s: string)
    ensures s in ServicesCreating(changes) <==>
              exists i :: 0 <= i < |changes| && "create" in changes[i].actions &&
                          changes[i].rtype.GetOr("") in ServiceMap && ServiceMap[changes[i].rtype.GetOr("")] == s
  {
    forall t | t in ServiceMap
      ensures ServiceMap[t] != ""
    {
    }
    if s in ServicesCreating(changes) {
      var t :| t in CreatedTypes(changes) && t in ServiceMap && ServiceMap[t] == s;
      CreatedTypesMember(changes, t);
    }
    if exists i :: 0 <= i < |changes| && "create" in changes[i].actions &&
                   changes[i].rtype.GetOr("") in ServiceMap && ServiceMap[changes[i].rtype.GetOr("")] == s {
      var i :| 0 <= i < |changes| && "create" in changes[i].actions &&
               changes[i].rtype.GetOr("") in ServiceMap && ServiceMap[changes[i].rtype.GetOr("")] == s;
      CreatedTypesMember(changes, changes[i].rtype.GetOr(""));
    }
  }

  /** Every limit of a created service is reported. */
  lemma LimitReported(changes: seq<ResourceChange>, limits: CanonFile, l: Entry)
    requires limits.Some? && HasObjects(limits.value, "limits")
    requires l in FileList(limits, "limits") && LimitApplies(ServicesCreating(changes), l)
    ensures ToLimitWarning(l) in LimitWarnings(changes, limits)
  {
    var kept := Filter(FileList(limits, "limits"), ApplyFilter(ServicesCreating(changes)));
    assert l in kept;
    var k :| 0 <= k < |kept| && kept[k] == l;
    MapEach(kept, ToLimitWarning);
  }

  /** The limits reported are the limits of created services, and only those. */
  lemma LimitWarningsSound(changes: seq<ResourceChange>, limits: CanonFile, k: int)
    requires limits.Some? && HasObjects(limits.value, "limits")
    requires 0 <= k < |LimitWarnings(changes, limits)|
    ensures exists l :: l in FileList(limits, "limits") && LimitApplies(ServicesCreating(changes), l) &&
                        LimitWarnings(changes, limits)[k] == ToLimitWarning(l)
  {
    var kept := Filter(FileList(limits, "limits"), ApplyFilter(ServicesCreating(changes)));
    MapEach(kept, ToLimitWarning);
    assert kept[k] in kept;
  }

  lemma {:induction false} NoCreatesNoServices(changes: seq<ResourceChange>)
    requires forall i :: 0 <= i < |changes| ==> "create" !in changes[i].actions
    ensures ServicesCreating(changes) == {}
    decreases |changes|
  {
    if changes != [] {
      NoCreatesNoServices(changes[..|changes| - 1]);
    }
  }

  // ================================================================ analyze

  /** The canon files the analysis reads. */
  datatype CanonFiles = CanonFiles(errorSignatures: CanonFile, sgInteractions: CanonFile, awsLimits: CanonFile, providerCompat: CanonFile)

  /** The result of `analyze`: the plan summary, the canon matches and both kinds of warning. */
  datatype Analysis = Analysis(
    planSummary: PlanSummary,
    canonFindings: seq<Finding>,
    diagnosticMatches: seq<DiagnosticMatch>,
    compatWarnings: seq<CompatWarning>,
    limitWarnings: seq<LimitWarning>)

  /** The shapes of the canon files under which none of the checks raises. */
  predicate FilesWellFormed(files: CanonFiles, plan: Plan) {
    (SearchesResources(plan.resourceChanges) ==>
       ResourceFilesWellFormed(files.errorSignatures, files.sgInteractions, files.awsLimits)) &&
    (plan.diagnostics != [] ==> StrFieldsIn(files.errorSignatures, "signatures", "error_pattern")) &&
    (ReadsCompatEntries(plan) ==> CompatFileWellFormed(files.providerCompat)) &&
    LimitsFileWellFormed(files.awsLimits, ServicesCreating(plan.resourceChanges))
  }

  /** What `analyze` returns for the plan. */
  function AnalysisOf(plan: Plan, files: CanonFiles, re: RegexEngine): Analysis
    requires FilesWellFormed(files, plan)
  {
    Analysis(
      Summary(plan),
      CanonFindings(plan.resourceChanges, ResourceSearch(files.errorSignatures, files.sgInteractions, files.awsLimits)),
      DiagnosticMatches(plan.diagnostics, Matcher(re, FileList(files.errorSignatures, "signatures"))),
      CompatWarnings(plan, files.providerCompat),
      LimitWarnings(plan.resourceChanges, files.awsLimits))
  }

  /** `analyze`: all four checks on the same plan. */
  method Analyze(plan: Plan, files: CanonFiles, re: RegexEngine) returns (a: Analysis)
    requires FilesWellFormed(files, plan)
    ensures a == AnalysisOf(plan, files, re)
  {
    var summary := ParsePlan(plan);
    var matches := FindCanonMatches(plan, re, files.errorSignatures, files.sgInteractions, files.awsLimits);
    var compat := CheckProviderCompat(plan, files.providerCompat);
    var limits := CheckLimitWarnings(plan, files.awsLimits);
    a := Analysis(summary, matches.findings, matches.diagnosticMatches, compat, limits);
  }

  /**
   * A plan without resource changes or diagnostics gets an empty summary, no
   * canon findings, no diagnostic matches and no limit warnings; only the
   * compat check, which reads the provider configuration, can still warn.
   */
  lemma EmptyPlanFindsNothing(plan: Plan, files: CanonFiles, re: RegexEngine)
    requires plan.resourceChanges == [] && plan.diagnostics == []
    requires FilesWellFormed(files, plan)
    ensures AnalysisOf(plan, files, re).planSummary == PlanSummary(0, [], [], 0, plan.terraformVersion.GetOr("unknown"))
    ensures AnalysisOf(plan, files, re).canonFindings == []
    ensures AnalysisOf(plan, files, re).diagnosticMatches == []
    ensures AnalysisOf(plan, files, re).limitWarnings == []
  {
    var all := seq(|ActionKinds|, i requires 0 <= i < |ActionKinds| => (ActionKinds[i], AddressesFor([], ActionKinds[i])));
    FilterNone(all, HasAddresses);
    assert SearchTypes([]) == [];
    assert ServicesCreating([]) == {};
    if files.awsLimits.Some? {
      FilterNone(FileList(files.awsLimits, "limits"), ApplyFilter({}));
    }
  }

  // ================================================================ versions

  /** `[int(x) for x in parts if x.isdigit()]` */
  function DigitParts(parts: seq<string>): (r: seq<nat>)
    ensures |r| <= |parts|
    decreases |parts|
  {
    if parts == [] then []
    else
      var last := parts[|parts| - 1];
      DigitParts(parts[..|parts| - 1]) + (if IsDigits(last) then [ParseNat(last)] else [])
  }

  /** The numeric components of a dotted version; components that are not all digits are dropped. */
  function VersionParts(v: string): seq<nat> {
    DigitParts(Split(v, '.'))
  }

  /** Component-wise comparison, the shorter side padded with zeros. */
  function CompareParts(pa: seq<nat>, pb: seq<nat>): (c: int)
    ensures c in {-1, 0, 1}
    decreases |pa| + |pb|
  {
    if pa == [] && pb == [] then 0
    else
      var va := if pa == [] then 0 else pa[0];
      var vb := if pb == [] then 0 else pb[0];
      if va < vb then -1
      else if va > vb then 1
      else CompareParts(if pa == [] then [] else pa[1..], if pb == [] then [] else pb[1..])
  }

  /** What `_compare_versions(a, b)` returns. */
  function CompareVersionsSpec(a: string, b: string): int {
    CompareParts(VersionParts(a), VersionParts(b))
  }

  /** `_compare_versions`: walks both component lists with zero padding and stops at the first difference. */
  method CompareVersions(a: string, b: string) returns (c: int)
    ensures c == CompareVersionsSpec(a, b)
    ensures c in {-1, 0, 1}
  {
    var pa, pb := VersionParts(a), VersionParts(b);
    var len := if |pa| > |pb| then |pa| else |pb|;
    var i := 0;
    while i < len
      invariant 0 <= i <= len
      invariant CompareVersionsSpec(a, b) == CompareParts(Drop(pa, i), Drop(pb, i))
    {
      var va := if i < |pa| then pa[i] else 0;
      var vb := if i < |pb| then pb[i] else 0;
      DropStep(pa, i);
      DropStep(pb, i);
      if va < vb {
        return -1;
      }
      if va > vb {
        return 1;
      }
      i := i + 1;
    }
    assert Drop(pa, i) == [] && Drop(pb, i) == [];
    return 0;
  }

  /** `p[i:]` in Python: empty once `i` is past the end. */
  function Drop(p: seq<nat>, i: nat): (r: seq<nat>)
    ensures i >= |p| ==> r == []
  {
    if i >= |p| then [] else p[i..]
  }

  lemma DropStep(p: seq<nat>, i: nat)
    ensures Drop(p, i) != [] ==> Drop(p, i)[0] == p[i] && Drop(p, i)[1..] == Drop(p, i + 1)
    ensures Drop(p, i) == [] ==> Drop(p, i + 1) == []
  {
  }

  /** Every version equals itself. */
  lemma {:induction false} CompareReflexive(p: seq<nat>)
    ensures CompareParts(p, p) == 0
    decreases |p|
  {
    if p != [] {
      CompareReflexive(p[1..]);
    }
  }

  /** Swapping the arguments negates the result. */
  lemma {:induction false} CompareAntisymmetric(pa: seq<nat>, pb: seq<nat>)
    ensures CompareParts(pa, pb) == -CompareParts(pb, pa)
    decreases |pa| + |pb|
  {
    if pa != [] || pb != [] {
      CompareAntisymmetric(if pa == [] then [] else pa[1..], if pb == [] then [] else pb[1..]);
    }
  }

  /** Trailing zero components do not change a comparison. */
  lemma {:induction false} ComparePadding(pa: seq<nat>, pb: seq<nat>)
    ensures CompareParts(pa + [0], pb) == CompareParts(pa, pb)
    decreases |pa| + |pb|
  {
    if pa == [] {
      if pb != [] {
        ZerosEqualEmpty(pb[1..]);
      }
    } else {
      assert (pa + [0])[0] == pa[0] && (pa + [0])[1..] == pa[1..] + [0];
      ComparePadding(pa[1..], if pb == [] then [] else pb[1..]);
    }
  }

  lemma ZerosEqualEmpty(pb: seq<nat>)
    ensures CompareParts([], pb) == CompareParts([0], pb)
  {
    var z: seq<nat> := [0];
    assert z[1..] == [];
  }

  /** Comparison is transitive, so versions are ordered consistently. */
  lemma {:induction false} CompareTransitive(pa: seq<nat>, pb: seq<nat>, pc: seq<nat>)
    requires CompareParts(pa, pb) <= 0 && CompareParts(pb, pc) <= 0
    ensures CompareParts(pa, pc) <= 0
    decreases |pa| + |pb| + |pc|
  {
    if pa != [] || pb != [] || pc != [] {
      var ta := if pa == [] then [] else pa[1..];
      var tb := if pb == [] then [] else pb[1..];
      var tc := if pc == [] then [] else pc[1..];
      var va := if pa == [] then 0 else pa[0];
      var vb := if pb == [] then 0 else pb[0];
      var vc := if pc == [] then 0 else pc[0];
      if va == vb && vb == vc {
        if pa == [] && pc == [] {
          assert CompareParts(pa, pc) == 0;
        } else {
          assert CompareParts(pa, pb) == CompareParts(ta, tb) by { UnfoldEqualHeads(pa, pb); }
          assert CompareParts(pb, pc) == CompareParts(tb, tc) by { UnfoldEqualHeads(pb, pc); }
          CompareTransitive(ta, tb, tc);
          UnfoldEqualHeads(pa, pc);
        }
      }
    }
  }

  /** With equal (padded) heads, comparison moves on to the tails. */
  lemma UnfoldEqualHeads(pa: seq<nat>, pb: seq<nat>)
    requires (if pa == [] then 0 else pa[0]) == (if pb == [] then 0 else pb[0])
    ensures CompareParts(pa, pb) == CompareParts(if pa == [] then [] else pa[1..], if pb == [] then [] else pb[1..])
  {
    if pa == [] && pb == [] {
      assert CompareParts([], []) == 0;
    }
  }

  /** A version and the same version with a `.0` component appended are equal. */
  lemma TrailingZeroComponent(v: string)
    ensures CompareVersionsSpec(v, v + ".0") == 0
  {
    assert v + ".0" == v + ['.'] + "0";
    SplitAppend(v, "0", '.');
    SplitNoSep("0", '.');
    var parts := Split(v, '.') + ["0"];
    assert parts[..|parts| - 1] == Split(v, '.');
    assert ParseNat("0") == 0 by { assert "0"[..0] == ""; }
    assert VersionParts(v + ".0") == VersionParts(v) + [0];
    ComparePadding(VersionParts(v), VersionParts(v));
    CompareReflexive(VersionParts(v));
    CompareAntisymmetric(VersionParts(v) + [0], VersionParts(v));
  }

  /** `"1.5"` and `"1.5.0"` are the same version. */
  lemma ShortVersionEqualsPadded()
    ensures CompareVersionsSpec("1.5", "1.5.0") == 0
  {
    TrailingZeroComponent("1.5");
    assert "1.5" + ".0" == "1.5.0";
  }

  // ---------------------------------------------------------------- version ranges

  predicate IsOpChar(c: char) {
    c == '>' || c == '<' || c == '=' || c == '!'
  }

  /** `[\d.]`, with ASCII digits. */
  predicate IsVersionChar(c: char) {
    IsDigit(c) || c == '.'
  }

  /** Length of the longest prefix of `s` made of operator characters. */
  function OpRun(s: string): (n: nat)
    ensures n <= |s|
    ensures forall i :: 0 <= i < n ==> IsOpChar(s[i])
    ensures n < |s| ==> !IsOpChar(s[n])
    decreases |s|
  {
    if s == [] || !IsOpChar(s[0]) then 0 else 1 + OpRun(s[1..])
  }

  /** Length of the longest prefix of `s` made of digits and dots. */
  function VersionRun(s: string): (n: nat)
    ensures n <= |s|
    ensures forall i :: 0 <= i < n ==> IsVersionChar(s[i])
    ensures n < |s| ==> !IsVersionChar(s[n])
    decreases |s|
  {
    if s == [] || !IsVersionChar(s[0]) then 0 else 1 + VersionRun(s[1..])
  }

  /**
   * `re.match(r"([><=!]+)\s*([\d.]+)", part)`: the operator (longest run of
   * `><=!` at the start), blanks, then the longest run of digits and dots.
   */
  function ParseConstraint(part: string): (r: Option<(string, string)>)
    ensures r.Some? ==> r.value.0 != [] && OpChars(r.value.0)
    ensures r.Some? ==> r.value.1 != [] && VersionChars(r.value.1)
  {
    var n := OpRun(part);
    if n == 0 then None
    else
      var rest := TrimStart(part[n..]);
      var m := VersionRun(rest);
      if m == 0 then None
      else
        OpRunPrefix(part);
        VersionRunPrefix(rest);
        Some((part[..n], rest[..m]))
  }

  predicate OpChars(s: string) {
    forall i :: 0 <= i < |s| ==> IsOpChar(s[i])
  }

  predicate VersionChars(s: string) {
    forall i :: 0 <= i < |s| ==> IsVersionChar(s[i])
  }

  lemma OpRunPrefix(s: string)
    ensures OpChars(s[..OpRun(s)])
  {
  }

  lemma VersionRunPrefix(s: string)
    ensures VersionChars(s[..VersionRun(s)])
  {
  }

  /** Whether comparison result `c` satisfies operator `op`; other operators constrain nothing. */
  predicate OpAllows(op: string, c: int) {
    if op == ">=" then c >= 0
    else if op == ">" then c > 0
    else if op == "<" then c < 0
    else if op == "<=" then c <= 0
    else if op == "=" then c == 0
    else true
  }

  /** One comma-separated part of a range holds for `version`; a part that does not parse holds. */
  predicate PartHolds(version: string, part: string) {
    match ParseConstraint(part)
    case None => true
    case Some((op, target)) => OpAllows(op, CompareVersionsSpec(version, target))
  }

  /** `[p.strip() for p in range_str.split(",")]` */
  function RangeParts(rangeStr: string): seq<string> {
    Map(Split(rangeStr, ','), Strip)
  }

  /** What `_version_in_range` answers: every part of the range holds. */
  predicate InRange(version: string, rangeStr: string) {
    AllPartsHold(version, RangeParts(rangeStr))
  }

  /** Every part holds, checked from the last part back. */
  predicate AllPartsHold(version: string, parts: seq<string>)
    decreases |parts|
  {
    parts == [] || (AllPartsHold(version, parts[..|parts| - 1]) && PartHolds(version, parts[|parts| - 1]))
  }

  /** The parts of two lists hold together iff each list's parts hold. */
  lemma {:induction false} AllPartsHoldConcat(version: string, a: seq<string>, b: seq<string>)
    ensures AllPartsHold(version, a + b) <==> AllPartsHold(version, a) && AllPartsHold(version, b)
    decreases |b|
  {
    if b == [] {
      assert a + b == a;
    } else {
      var init := b[..|b| - 1];
      AllPartsHoldConcat(version, a, init);
      assert (a + b)[..|a + b| - 1] == a + init;
      assert (a + b)[|a + b| - 1] == b[|b| - 1];
    }
  }

  /** `_version_in_range`: checks the parts in order and fails at the first violated constraint. */
  method VersionInRange(version: string, rangeStr: string) returns (r: bool)
    ensures r == InRange(version, rangeStr)
  {
    r := PartsHold(version, RangeParts(rangeStr));
  }

  method PartsHold(version: string, parts: seq<string>) returns (r: bool)
    ensures r == AllPartsHold(version, parts)
  {
    var i := 0;
    while i < |parts|
      invariant 0 <= i <= |parts|
      invariant AllPartsHold(version, parts[..i])
    {
      PrefixPrefix(parts, i);
      var m := ParseConstraint(parts[i]);
      if m.Some? {
        var (op, target) := m.value;
        var c := CompareVersions(version, target);
        PartHoldsParsed(version, parts[i], op, target);
        var violated := Violates(op, c);
        if violated {
          FailingPart(version, parts, i);
          return false;
        }
      } else {
        PartHoldsUnparsed(version, parts[i]);
      }
      i := i + 1;
    }
    assert parts[..i] == parts;
    return true;
  }

  /** The five operator tests of the loop body: whether `c` breaks `op`. */
  method Violates(op: string, c: int) returns (v: bool)
    ensures v == !OpAllows(op, c)
  {
    v := false;
    if op == ">=" && c < 0 {
      v := true;
    }
    if op == ">" && c <= 0 {
      v := true;
    }
    if op == "<" && c >= 0 {
      v := true;
    }
    if op == "<=" && c > 0 {
      v := true;
    }
    if op == "=" && c != 0 {
      v := true;
    }
  }

  /** A part that fails makes the whole list fail. */
  lemma {:induction false} FailingPart(version: string, parts: seq<string>, i: int)
    requires 0 <= i < |parts| && !PartHolds(version, parts[i])
    ensures !AllPartsHold(version, parts)
    decreases |parts|
  {
    if i < |parts| - 1 {
      FailingPart(version, parts[..|parts| - 1], i);
    }
  }

  lemma PartHoldsParsed(version: string, part: string, op: string, target: string)
    requires ParseConstraint(part) == Some((op, target))
    ensures PartHolds(version, part) == OpAllows(op, CompareVersionsSpec(version, target))
  {
  }

  lemma PartHoldsUnparsed(version: string, part: string)
    requires ParseConstraint(part).None?
    ensures PartHolds(version, part)
  {
  }

  /** An empty range accepts every version. */
  lemma EmptyRangeAcceptsAll(version: string)
    ensures InRange(version, "")
  {
    assert Split("", ',') == [""];
    MapSingle("", Strip);
    assert Strip("") == "";
    assert RangeParts("") == [""];
    assert OpRun("") == 0;
    PartHoldsUnparsed(version, "");
    AllPartsHoldSingle(version, "");
  }

  /** Joining two ranges with a comma asks for both. */
  lemma RangeConjunction(version: string, a: string, b: string)
    ensures InRange(version, a + "," + b) <==> InRange(version, a) && InRange(version, b)
  {
    assert a + "," + b == a + [','] + b;
    SplitAppend(a, b, ',');
    MapConcat(Split(a, ','), Split(b, ','), Strip);
    AllPartsHoldConcat(version, RangeParts(a), RangeParts(b));
  }

  /** A bare `<op><target>` parses into its operator and target. */
  lemma ParseSimpleConstraint(op: string, target: string)
    requires op != [] && forall i :: 0 <= i < |op| ==> IsOpChar(op[i])
    requires target != [] && forall i :: 0 <= i < |target| ==> IsVersionChar(target[i])
    ensures ParseConstraint(op + target) == Some((op, target))
  {
    var s := op + target;
    VersionCharNotSpace(target[0]);
    OpRunOfPrefix(op, target);
    assert s[|op|..] == target && s[..|op|] == op;
    TrimStartNoLead(target);
    VersionRunWhole(target);
    assert target[..|target|] == target;
  }

  lemma VersionCharNotSpace(c: char)
    requires IsVersionChar(c)
    ensures !IsSpace(c) && !IsOpChar(c)
  {
  }

  /** The operator run over `op + target` is exactly `op`. */
  lemma {:induction false} OpRunOfPrefix(a: string, b: string)
    requires forall i :: 0 <= i < |a| ==> IsOpChar(a[i])
    requires b != [] ==> !IsOpChar(b[0])
    ensures OpRun(a + b) == |a|
    decreases |a|
  {
    if a == [] {
      assert a + b == b;
    } else {
      OpRunOfPrefix(a[1..], b);
      assert (a + b)[1..] == a[1..] + b;
    }
  }

  lemma {:induction false} VersionRunWhole(a: string)
    requires forall i :: 0 <= i < |a| ==> IsVersionChar(a[i])
    ensures VersionRun(a) == |a|
    decreases |a|
  {
    if a != [] {
      VersionRunWhole(a[1..]);
    }
  }

  /** A one-constraint range `<op><target>` holds exactly when the comparison satisfies `op`. */
  lemma SingleConstraint(version: string, op: string, target: string)
    requires op != [] && forall i :: 0 <= i < |op| ==> IsOpChar(op[i])
    requires target != [] && forall i :: 0 <= i < |target| ==> IsVersionChar(target[i])
    ensures InRange(version, op + target) <==> OpAllows(op, CompareVersionsSpec(version, target))
  {
    var s := op + target;
    ConstraintIsOnePart(op, target);
    ParseSimpleConstraint(op, target);
    PartHoldsParsed(version, s, op, target);
    AllPartsHoldSingle(version, s);
  }

  lemma AllPartsHoldSingle(version: string, part: string)
    ensures AllPartsHold(version, [part]) == PartHolds(version, part)
  {
    assert [part][..0] == [];
  }

  /** A bare `<op><target>` is a range of one part, itself. */
  lemma ConstraintIsOnePart(op: string, target: string)
    requires op != [] && forall i :: 0 <= i < |op| ==> IsOpChar(op[i])
    requires target != [] && forall i :: 0 <= i < |target| ==> IsVersionChar(target[i])
    ensures RangeParts(op + target) == [op + target]
  {
    var s := op + target;
    forall i | 0 <= i < |s| ensures s[i] != ',' {
      if i < |op| { assert s[i] == op[i]; } else { assert s[i] == target[i - |op|]; }
    }
    SplitNoSep(s, ',');
    assert !IsSpace(s[0]) && !IsSpace(s[|s| - 1]);
    StripNoPadding(s);
    MapSingle(s, Strip);
  }
}
