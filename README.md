# tfaws-boid knowledge core, modelled in Dafny

This project models the three Python modules that hold what the
Terraform/AWS assistant knows and how it uses that knowledge:

- **Memories** (`scripts/memory_lib.py`) is a SQLite store of learned
  knowledge: fixes for errors, conventions and infrastructure quirks.
  - Every row carries a scope (personal, team or org) and an optional
    session.
  - A fix is keyed by the hash of its normalised error text.
  - A convention is keyed by (category, pattern). It has a raw confidence
    and a count of distinct sessions, which together give an *effective
    confidence*.
  - Memories are merged with canon results. Overriding memories come
    first, then the canon, then the other memories.
  - A team- or org-scoped copy of the store can be exported for a fork.
- **Canon library** (`scripts/canon_lib.py`) provides:
  - deduplication on a field;
  - the 12-character entry hash;
  - `_meta` stamping;
  - matching an error against the canon's error signatures;
  - search of the canon files by resource type and by tag.
- **Plan analyzer** (`scripts/tf_plan_analyzer.py`) reads `terraform show
  -json` output and produces:
  - a plan summary;
  - canon findings per resource type;
  - canon matches per diagnostic;
  - provider compatibility warnings;
  - AWS limit warnings.

  It also holds the dotted-version comparison and the version-range check
  that these rely on.

## Files

| file | module | contents |
|---|---|---|
| `wrappers.dfy` | `Wrappers` | `Option`, `Result` |
| `text.dfy` | `Text` | Python string operations (`lower`, `strip`, `isspace`, `split`, `join`, `in`, `int`) and the error normaliser |
| `seqs.dfy` | `Seqs` | filter, map, subsequence, string order and sorting, the stable descending sort behind `ORDER BY ... DESC` |
| `json.dfy` | `Json` | decoded JSON values and the `dict.get` / truthiness / `set` reading the scripts rely on |
| `canon_lib.dfy` | `CanonLib` | `canon_lib.py` |
| `tf_plan_analyzer.dfy` | `PlanAnalyzer` | `tf_plan_analyzer.py` |
| `memory_lib.dfy` | `MemoryLib` | `memory_lib.py` |

## How the source is modelled

**Memories.**
- The database is the class `MemoryLib.Store`:
  - one sequence per table, held in row-id order;
  - the set of known session ids;
  - the hash function.
- Each writing operation is a method. Its `ensures` equates the returned
  value and the new table with a pure transition function of the old
  table (`RecordFixOn`, `RecordConventionOn`, `RecordQuirkOn`,
  `ReinforceOn`, `ContradictOn`). The properties of each operation are
  lemmas about that function.
- `Valid()` is the set of table invariants:
  - ids count up from 1;
  - hit counts are positive;
  - confidences lie in [0, 1];
  - every session reference exists;
  - error hashes are unique, and so are (category, pattern) pairs.

  Every write keeps `Valid()`.
- A write that SQLite would reject becomes `Err(IntegrityError)`, and the
  table is left unchanged. There are two such cases:
  - the `scope` CHECK constraint (`ParseScope`);
  - the session foreign key (`SessionOk`).
- SQL `UPDATE ... WHERE id = ?` changes at most one row, because ids are
  unique.
- `SELECT` without `ORDER BY` returns rows in table order.
- `ORDER BY col DESC` is a stable descending sort: equal keys keep table
  order.

**Canon and plan.**
- JSON files and the plan arrive already decoded:
  - a canon file is a `CanonFile`, which is `None` when the file is
    missing or is not valid JSON;
  - the plan is the typed record `Plan`.
- Loops that build lists are methods with loop invariants. Each is proved
  equal to a function, and the promised properties are proved about that
  function.
- Where a Python script would raise on a malformed file (a `KeyError`, or
  iterating a non-list), the model has a `requires` that states the shape
  of file under which the code does not raise. Examples:
  `ResourceFilesWellFormed`, `LimitsFileWellFormed`, `CompatFileWellFormed`.
  Each such `requires` applies only on inputs where the code reads that part
  of the file:
  - `FindCanonMatches` needs well-formed resource files only when some
    change has a non-empty type (`SearchesResources`), and string patterns
    in the signatures only when the plan has a diagnostic;
  - `CheckProviderCompat` needs a well-formed compat file only when the plan
    has a Terraform version and a checked AWS provider
    (`ReadsCompatEntries`);
  - `CheckLimitWarnings` always iterates the limits, so it always needs a
    list of objects with hashable services; only the limits it reports need
    the four keys it reads.

**Behaviour taken from the code rather than from its comments or documentation.**
- `search_by_resource` gives `aws_security_group` the service hint
  `security`, because it computes `rt.replace("aws_", "").split("_")[0]`.
  The comment beside that line (`scripts/canon_lib.py:206`) says `ec2`.
  `CanonLib.ServiceHintSecurityGroup` states the value the code computes.
- `record_convention` overwrites the stored `session_id` with the supplied
  one, even when the supplied one is `None`.
- `reinforce_convention` keeps the old session unless a new, non-empty
  session is supplied.
- `contradict_convention` checks nothing. It returns 0.3 even for an id
  that does not exist.
- `lookup_fix` with an empty text and no hash has no hash condition, so it
  returns every fix. `query_with_priority` relies on this.
- `record_fix` on an existing hash does not check the supplied scope or
  session. Only the insert is subject to the constraints.
- The override threshold keeps the code's tolerance: `eff >= 0.8 - 1e-9`.

## Model

| member | source | states |
|---|---|---|
| `MemoryLib.ParseScope` | scripts/memory_lib.py:101-110 | the scope column accepts exactly "personal", "team" and "org" (the schema's CHECK), and the parsed scope names the same string |
| `Text.NormalizeForm` | scripts/memory_lib.py:52-54 | a normalised error text has no upper-case letter, every whitespace is a single space, no two spaces are adjacent and none is at either end |
| `Text.NormalizeIdempotent` | scripts/memory_lib.py:52-54 | normalising a normalised text changes nothing |
| `Text.NormalizeIgnoresCase` | scripts/memory_lib.py:52-54 | texts equal up to case normalise alike |
| `Text.NormalizeIgnoresPadding` | scripts/memory_lib.py:52-54 | leading and trailing whitespace do not affect the normal form |
| `Text.NormalizeIgnoresSpacing` | scripts/memory_lib.py:52-54 | the width and kind of an inner whitespace run do not affect the normal form |
| `MemoryLib.VariantsShareHash` | scripts/memory_lib.py:52-59 | an error text and a variant differing in case, padding and inner spacing get the same error hash |
| `MemoryLib.DifferentTextsSeparateRows` | scripts/memory_lib.py:91-113 | with a one-to-one digest, recording a text whose normal form differs from an earlier one's, and whose hash is not stored, inserts a row of its own: a new id, earlier rows untouched, different hashes; it is refused exactly when the scope or session is |
| `MemoryLib.FindFix` | scripts/memory_lib.py:88-90 | the lookup finds the first row with the hash, or reports that no row has it |
| `MemoryLib.Store.constructor` | scripts/memory_lib.py:45-47 | a new database has the given sessions, empty knowledge tables, and is valid |
| `MemoryLib.Store.RecordFix` | scripts/memory_lib.py:75-113 | returns and leaves what `RecordFixOn` gives for the hash of the text and the parsed scope; keeps the invariants; no other table changes |
| `MemoryLib.Store.RecordFixHashed` | scripts/memory_lib.py:88-113 | the hit-or-insert step of `record_fix` for a computed hash, equal to `RecordFixOn` |
| `MemoryLib.RecordFixKeepsValid` | scripts/memory_lib.py:75-113 | recording a fix keeps ids consecutive, hashes unique, hit counts positive and sessions existing |
| `MemoryLib.RepeatedFixBumpsHitCount` | scripts/memory_lib.py:91-99 | recording the same hash again returns the same id, adds exactly one hit, refreshes `updated_at`, and changes no other row or column |
| `MemoryLib.RecordedRow` | scripts/memory_lib.py:75-113 | after a successful record, the returned id names the row that holds the hash, and it is the first such row |
| `MemoryLib.NewFixInserted` | scripts/memory_lib.py:101-113 | a new hash is inserted exactly when scope and session are accepted: the next id is returned and the new last row holds the hash, the error text, root cause, fix, resource, provider, validated, scope and session as given, both timestamps now and one hit; otherwise `IntegrityError` and nothing changes |
| `MemoryLib.FindConvention` | scripts/memory_lib.py:131-135 | finds a row with the (category, pattern), or reports that no row has it |
| `MemoryLib.Store.RecordConvention` | scripts/memory_lib.py:116-159 | returns and leaves what `RecordConventionOn` gives; keeps the invariants; no other table changes |
| `MemoryLib.RecordConventionKeepsValid` | scripts/memory_lib.py:116-159 | recording a convention keeps ids consecutive, (category, pattern) unique, confidence in [0, 1] and sessions positive |
| `MemoryLib.RecordConventionEffect` | scripts/memory_lib.py:131-159 | accepted iff the session exists and, for a new pair, the scope is valid; a refusal changes nothing. A repeat keeps the id and row count, adds 0.2 capped at 1.0, grows the session count by one iff the session is non-empty and new, stores the supplied session, refreshes `updated_at`, and changes no other column or row. A new pair is appended with the next id, its arguments, confidence 0.5 and one session, after the unchanged rows |
| `MemoryLib.Store.RecordQuirk` | scripts/memory_lib.py:162-179 | returns and leaves what `RecordQuirkOn` gives; keeps the invariants; no other table changes |
| `MemoryLib.RecordQuirkAlwaysInserts` | scripts/memory_lib.py:162-179 | every accepted quirk becomes a new last row, duplicate or not, exactly when scope and session are accepted: the next id (`lastrowid`) is returned and the row holds service, description, region, workaround, scope and session as given and both timestamps now; a refused one gives `IntegrityError` and changes nothing |
| `MemoryLib.FixLookup` | scripts/memory_lib.py:184-213 | the result is sorted by hit count descending, is a permutation of the selected fixes, and holds a fix iff it is stored and matches the hash, resource and scope conditions |
| `MemoryLib.Store.LookupFix` | scripts/memory_lib.py:184-213 | the stored fixes matching the conditions, most hits first; an explicit hash wins over the text's hash |
| `MemoryLib.ConventionRows` | scripts/memory_lib.py:216-241 | sorted by raw confidence descending, a permutation of the selected conventions, and holds a row iff it matches category, scope and a positive minimum confidence |
| `MemoryLib.Store.LookupConventions` | scripts/memory_lib.py:216-248 | each selected row in that order, paired with its effective confidence |
| `MemoryLib.Store.LookupQuirks` | scripts/memory_lib.py:251-275 | the quirks matching service, region and scope, in table order |
| `MemoryLib.EffectiveConfidence` | scripts/memory_lib.py:280-289 | never above 1.0; one session gives at most 0.7 and at most the raw value; more sessions add at most 0.2; non-negative for non-negative input |
| `MemoryLib.EffectiveConfidenceMonotone` | scripts/memory_lib.py:280-289 | more raw confidence or more sessions never lowers the effective confidence |
| `MemoryLib.EffectiveConfidenceExamples` | scripts/memory_lib.py:280-289 | (0.9, 1) gives 0.7; (0.7, 3) gives 0.8; (0.7, 5) gives 0.9; (0.95, 10) gives 1.0; (0.8, 4) gives 0.95 |
| `MemoryLib.FindConventionById` | scripts/memory_lib.py:300-305 | finds a row with the id, or reports that no row has it |
| `MemoryLib.Store.ReinforceConvention` | scripts/memory_lib.py:292-323 | returns and leaves what `ReinforceOn` gives; keeps the invariants; no other table changes |
| `MemoryLib.ReinforceKeepsValid` | scripts/memory_lib.py:292-323 | reinforcing keeps the convention invariants |
| `MemoryLib.ReinforceEffect` | scripts/memory_lib.py:292-323 | a missing id fails with `NotFound` and changes nothing. Otherwise the write succeeds iff the session is not new or exists (the foreign key), and a refused write changes nothing. A successful one returns and stores confidence + 0.1 capped at 1.0; the session count grows iff the session is non-empty and new, and only then is it stored; `updated_at` becomes now; id, category, pattern, example, source, scope and `created_at` stay; other rows are unchanged |
| `MemoryLib.Store.ContradictConvention` | scripts/memory_lib.py:326-339 | returns 0.3 and leaves what `ContradictOn` gives; keeps the invariants |
| `MemoryLib.ContradictEffect` | scripts/memory_lib.py:326-339 | returns 0.3; the row with the id, if any, gets confidence 0.3 and `updated_at` now and keeps every other column, including the session count and the session; other rows are unchanged; the table stays valid |
| `MemoryLib.ShouldOverride` | scripts/memory_lib.py:422-438 | overrides iff the scope is team or org, or is personal with validated = 1; a reason is given iff it overrides, and names the scope or the validation |
| `MemoryLib.FixOverrideAgrees` | scripts/memory_lib.py:422-438 | the override decision on a stored fix is `_should_override` on the fix's scope and validated columns |
| `MemoryLib.ShouldOverrideConvention` | scripts/memory_lib.py:441-460 | overrides iff team or org, or personal with effective confidence ≥ 0.8 − 1e-9 (defaults 0.0 and 1); the personal reason carries the effective confidence |
| `MemoryLib.ToleranceOnGrid` | scripts/memory_lib.py:456 | for a raw confidence that is a multiple of 0.1, the tolerant test `>= 0.8 - 1e-9` agrees with an exact `>= 0.8` |
| `MemoryLib.ConventionOverrideBoundary` | scripts/memory_lib.py:441-460 | 0.7 over three sessions overrides at exactly 0.8; 0.69 over three does not; 0.7 over one does not; team always does; within the `1e-9` tolerance, 0.6999999995 over three sessions overrides |
| `MemoryLib.SingleSessionNeverOverrides` | scripts/memory_lib.py:441-460 | a personal convention seen in one session never overrides, whatever its raw confidence |
| `MemoryLib.ThreeSessionLifecycle` | scripts/memory_lib.py:292-323 | recorded in session A and reinforced in B and C, a convention reaches 0.7 over three sessions, effective 0.8, and overrides |
| `MemoryLib.MergeWithPriority` | scripts/memory_lib.py:386-413 | the merge loop yields overriding memories, then the canon entries, then non-overriding memories, each group in input order |
| `MemoryLib.MergedBuckets` | scripts/memory_lib.py:386-413 | the merged list is as long as both inputs together; its first part is exactly the overriding fixes, then the canon entries unflagged, then the non-overriding fixes unflagged |
| `MemoryLib.MergedKeepsEveryFix` | scripts/memory_lib.py:386-413 | every memory fix appears in the merged list exactly as often as in the memory results |
| `MemoryLib.NoCanonMergesMemoryOnly` | scripts/memory_lib.py:373-378 | when the canon yields nothing, the merged list is the overriding fixes followed by the others |
| `MemoryLib.Store.QueryWithPriority` | scripts/memory_lib.py:344-419 | canon results are the matching signatures (none when the file is missing or malformed); memory results are `lookup_fix` on the text; merged is their priority merge |
| `MemoryLib.ForkScopes` | scripts/memory_lib.py:490-493 | a fork never takes personal rows and always takes org rows; it takes team rows iff the filter is not "org" |
| `MemoryLib.ForkFixes` | scripts/memory_lib.py:498-514 | each forked fix is a copy of a source fix with the next id |
| `MemoryLib.ForkFixesAreFiltered` | scripts/memory_lib.py:498-514 | the forked fixes are exactly the fixes of the chosen scopes, in table order, renumbered from 1 and without a session |
| `MemoryLib.ForkConventionsAreFiltered` | scripts/memory_lib.py:516-530 | the forked conventions are exactly those of the chosen scopes, in order, renumbered, with no session and one distinct session |
| `MemoryLib.ForkQuirksAreFiltered` | scripts/memory_lib.py:532-545 | the forked quirks are exactly those of the chosen scopes, in order, renumbered and without a session |
| `MemoryLib.ForkedFixesScoped` | scripts/memory_lib.py:465-514 | no forked fix is personal; with filter "org" all are org; none has a session |
| `MemoryLib.ForkedConventionsScoped` | scripts/memory_lib.py:516-530 | no forked convention is personal; each keeps its confidence, has one distinct session and no session id |
| `MemoryLib.ForkedQuirksScoped` | scripts/memory_lib.py:532-545 | no forked quirk is personal; with filter "org" all are org; none has a session |
| `MemoryLib.ForkValid` | scripts/memory_lib.py:465-551 | the fork of a valid store satisfies the table invariants with an empty sessions table |
| `MemoryLib.ForkFixesDistinct` | scripts/memory_lib.py:498-514 | forked fixes keep unique error hashes and get ids 1, 2, … |
| `MemoryLib.ForkConventionsDistinct` | scripts/memory_lib.py:516-530 | forked conventions keep unique (category, pattern) and get ids 1, 2, … |
| `MemoryLib.Store.ExportForFork` | scripts/memory_lib.py:465-551 | a fresh, valid store with the same hash function, no sessions, and the forked tables |
| `MemoryLib.Store.CopyFixesInto` | scripts/memory_lib.py:498-514 | the fix copy loop fills the new store's fixes with the forked fixes and touches nothing else |
| `MemoryLib.Store.CopyConventionsInto` | scripts/memory_lib.py:516-530 | the convention copy loop fills the new store's conventions with the forked conventions and touches nothing else |
| `MemoryLib.Store.CopyQuirksInto` | scripts/memory_lib.py:532-545 | the quirk copy loop fills the new store's quirks with the forked quirks and touches nothing else |
| `CanonLib.DedupByField` | scripts/canon_lib.py:92-101 | the result is a subsequence of the input; every kept key is truthy; kept keys are pairwise different under Python set equality; the first entry of every truthy key is kept; the result is exactly those first entries in input order (`FirstsOf`) |
| `CanonLib.DedupKeepsEveryKey` | scripts/canon_lib.py:92-101 | every truthy key of the input is the key of some kept entry |
| `CanonLib.EntryHash` | scripts/canon_lib.py:104-107 | the hash is at most 12 characters, exactly 12 for a digest of that length, and is a prefix of the digest of the joined parts |
| `CanonLib.EntryHashOnlyNamedFields` | scripts/canon_lib.py:104-107 | entries that agree on the named fields have the same hash |
| `CanonLib.EntryHashFieldOrder` | scripts/canon_lib.py:106 | the order in which the fields are listed does not change the hash |
| `CanonLib.UpdatedMetaContents` | scripts/canon_lib.py:80-87 | each override holds its value; `date` is today unless overridden; every other key is as it was |
| `CanonLib.CanonDocument.UpdateMeta` | scripts/canon_lib.py:80-87 | creates `_meta` when absent, stamps the date, applies the overrides, and returns the document; a non-object `_meta` fails and changes nothing |
| `CanonLib.MatchError` | scripts/canon_lib.py:161-172 | the signatures whose pattern matches, in input order: a regex search ignoring case, or a case-blind substring test for a pattern that does not compile |
| `CanonLib.SearchByResource` | scripts/canon_lib.py:175-214 | the signature hits whose resource contains the lower-cased type, then sg patterns naming it, then limits of its service hint, each in file order; a missing file contributes nothing |
| `CanonLib.AppendMatching` | scripts/canon_lib.py:186-188 | the loop appends a hit for each entry satisfying the test, in order |
| `CanonLib.NamesResource` | scripts/canon_lib.py:196-199 | the inner loop finds whether any listed terraform resource contains the type |
| `CanonLib.AppendPatterns` | scripts/canon_lib.py:195-199 | each sg pattern naming the type is appended once |
| `CanonLib.ServiceHint` | scripts/canon_lib.py:207 | the hint contains no underscore |
| `CanonLib.ServiceHintOfType` | scripts/canon_lib.py:207 | for `aws_<a>_<b>` where `a` has no underscore and `<a>_<b>` does not contain "aws_", the hint is `a` |
| `CanonLib.ServiceHintS3Bucket` | scripts/canon_lib.py:206-207 | `aws_s3_bucket` gives `s3` |
| `CanonLib.ServiceHintSecurityGroup` | scripts/canon_lib.py:206-207 | `aws_security_group` gives `security`, not the `ec2` the comment mentions |
| `CanonLib.SearchByTags` | scripts/canon_lib.py:217-241 | the signatures, then the sg patterns, whose lower-cased tags meet the lower-cased query |
| `CanonLib.TagHitsCarryTag` | scripts/canon_lib.py:231-237 | every hit comes from one of the two files and shares a tag with the query |
| `CanonLib.UnknownTagFindsNothing` | scripts/canon_lib.py:217-241 | a query no entry's tags meet finds nothing |
| `PlanAnalyzer.DistinctTypes` | scripts/tf_plan_analyzer.py:40-45 | the collected types are distinct and are exactly the types (default "unknown") of the changes |
| `PlanAnalyzer.ParsePlan` | scripts/tf_plan_analyzer.py:27-60 | total changes, action lists, sorted distinct resource types, diagnostics count, and the version (default "unknown") |
| `PlanAnalyzer.NoteType` | scripts/tf_plan_analyzer.py:43-45 | adding a change's type keeps the type list equal to the distinct types seen so far |
| `PlanAnalyzer.FileAddress` | scripts/tf_plan_analyzer.py:47-52 | after a change, each action's list holds the addresses of every change so far that carries the action |
| `PlanAnalyzer.FileUnder` | scripts/tf_plan_analyzer.py:50-52 | one action of a change appends the address to that action's list when the action is one of the known kinds; the kinds and every other list are unchanged |
| `PlanAnalyzer.ReportedActions` | scripts/tf_plan_analyzer.py:56 | keeping the non-empty lists gives the action lists of the changes |
| `PlanAnalyzer.AddressesForMember` | scripts/tf_plan_analyzer.py:42-52 | an address is listed under an action iff some change with that address carries the action |
| `PlanAnalyzer.ActionHitsMember` | scripts/tf_plan_analyzer.py:50-52 | a change lists its address under a kind iff the kind is among its actions |
| `PlanAnalyzer.ActionListsShape` | scripts/tf_plan_analyzer.py:56 | only the five known actions appear, in their fixed order, each with a non-empty list; every action with an address appears |
| `PlanAnalyzer.FindCanonMatches` | scripts/tf_plan_analyzer.py:63-114 | findings are the first hit per canon entry over the sorted non-empty types; diagnostic matches are the diagnostics with matching signatures |
| `PlanAnalyzer.CollectTypes` | scripts/tf_plan_analyzer.py:68-71 | the collected types are the distinct types of the changes, an absent type read as "" |
| `PlanAnalyzer.SearchSorted` | scripts/tf_plan_analyzer.py:74-88 | the type loop yields the first finding per entry of the candidate hits |
| `PlanAnalyzer.KeepUnseen` | scripts/tf_plan_analyzer.py:80-88 | the per-type loop appends the hits whose entry is not yet seen, and the seen set is the entries found so far |
| `PlanAnalyzer.FirstPerEntry` | scripts/tf_plan_analyzer.py:80-88 | findings cover every candidate entry, and no entry is reported twice |
| `PlanAnalyzer.FirstPerEntryIsFirst` | scripts/tf_plan_analyzer.py:80-88 | each finding is the first candidate with its entry |
| `PlanAnalyzer.CandidatesFollowTypes` | scripts/tf_plan_analyzer.py:76-79 | candidates come from non-empty types of the list, in the sorted order of the types |
| `PlanAnalyzer.EarliestTypeWins` | scripts/tf_plan_analyzer.py:74-88 | an entry found by several types is credited to the smallest of them |
| `PlanAnalyzer.FindingsCoverCandidates` | scripts/tf_plan_analyzer.py:74-88 | every candidate entry has a finding, and findings have distinct entries |
| `PlanAnalyzer.CandidateIsSearchHit` | scripts/tf_plan_analyzer.py:76-88 | a candidate exists iff its type is one of the non-empty types and the search for that type returns its hit |
| `PlanAnalyzer.MatchDiagnostics` | scripts/tf_plan_analyzer.py:98-109 | the diagnostic loop yields one match per diagnostic whose text matches some signature |
| `PlanAnalyzer.DiagnosticMatchesAreMatchedDiagnostics` | scripts/tf_plan_analyzer.py:98-109 | the matches are the diagnostics with signatures, in order, each with its signatures |
| `PlanAnalyzer.CheckProviderCompat` | scripts/tf_plan_analyzer.py:117-155 | the warnings are exactly `CompatWarnings` of the plan and the compat file |
| `PlanAnalyzer.AppendBreaking` | scripts/tf_plan_analyzer.py:144-153 | the entry loop appends one warning per breaking entry whose range holds the version |
| `PlanAnalyzer.Breaks` | scripts/tf_plan_analyzer.py:145-148 | an entry warns iff its status is "breaking" and the version is in its range |
| `PlanAnalyzer.ProviderWarningsMember` | scripts/tf_plan_analyzer.py:135-153 | over the providers loop, a warning is produced iff its entry is among the breaking entries kept for the version and some checked AWS provider has that non-empty constraint |
| `PlanAnalyzer.CompatWarningsMember` | scripts/tf_plan_analyzer.py:117-155 | a warning exists iff the file loaded, the plan has a version, the entry breaks that version, and some AWS provider has the constraint |
| `PlanAnalyzer.CheckLimitWarnings` | scripts/tf_plan_analyzer.py:158-217 | the warnings are exactly `LimitWarnings` of the changes and the limits file |
| `PlanAnalyzer.CountCreates` | scripts/tf_plan_analyzer.py:171-176 | the counted types are those created, each with its number of creates |
| `PlanAnalyzer.MappedServices` | scripts/tf_plan_analyzer.py:202-206 | the services are the non-empty mapped services of the types |
| `PlanAnalyzer.MatchingLimits` | scripts/tf_plan_analyzer.py:208-215 | one warning per limit whose service is created, in file order |
| `PlanAnalyzer.CreatedTypesMember` | scripts/tf_plan_analyzer.py:171-176 | a type is counted iff some change of that type creates, iff its count is positive |
| `PlanAnalyzer.ServicesCreatingMember` | scripts/tf_plan_analyzer.py:179-206 | a service is created iff some creating change has a type that maps to it |
| `PlanAnalyzer.LimitReported` | scripts/tf_plan_analyzer.py:208-215 | every limit of a created service is warned about |
| `PlanAnalyzer.LimitWarningsSound` | scripts/tf_plan_analyzer.py:208-215 | every warning comes from a limit of a created service |
| `PlanAnalyzer.NoCreatesNoServices` | scripts/tf_plan_analyzer.py:171-206 | a plan that creates nothing touches no service |
| `PlanAnalyzer.Analyze` | scripts/tf_plan_analyzer.py:261-268 | the analysis is the summary, the canon matches and both kinds of warning on the same plan |
| `PlanAnalyzer.EmptyPlanFindsNothing` | scripts/tf_plan_analyzer.py:261-268 | an empty plan has an empty summary, no findings, no diagnostic matches and no limit warnings |
| `PlanAnalyzer.DigitParts` | scripts/tf_plan_analyzer.py:248-249 | no more numbers than dotted parts (non-digit parts are dropped) |
| `PlanAnalyzer.CompareParts` | scripts/tf_plan_analyzer.py:250-258 | the comparison answers −1, 0 or 1 |
| `PlanAnalyzer.CompareVersions` | scripts/tf_plan_analyzer.py:246-258 | the loop answers the comparison of the padded number lists, one of −1, 0, 1 |
| `PlanAnalyzer.CompareReflexive` | scripts/tf_plan_analyzer.py:246-258 | every version equals itself |
| `PlanAnalyzer.CompareAntisymmetric` | scripts/tf_plan_analyzer.py:246-258 | swapping the arguments negates the answer |
| `PlanAnalyzer.CompareTransitive` | scripts/tf_plan_analyzer.py:246-258 | a ≤ b and b ≤ c give a ≤ c |
| `PlanAnalyzer.ComparePadding` | scripts/tf_plan_analyzer.py:251-253 | a trailing zero component does not change the comparison |
| `PlanAnalyzer.TrailingZeroComponent` | scripts/tf_plan_analyzer.py:246-258 | `v` and `v.0` compare equal |
| `PlanAnalyzer.ShortVersionEqualsPadded` | scripts/tf_plan_analyzer.py:246-258 | "1.5" equals "1.5.0" |
| `PlanAnalyzer.ParseConstraint` | scripts/tf_plan_analyzer.py:228-231 | a parsed part has a non-empty operator of `><=!` and a non-empty target of digits and dots |
| `PlanAnalyzer.ParseSimpleConstraint` | scripts/tf_plan_analyzer.py:228-231 | an operator run followed by a version run parses to exactly those two |
| `PlanAnalyzer.VersionInRange` | scripts/tf_plan_analyzer.py:220-243 | the answer is whether every comma-separated part of the range holds |
| `PlanAnalyzer.PartsHold` | scripts/tf_plan_analyzer.py:227-243 | the part loop answers whether all parts hold |
| `PlanAnalyzer.AllPartsHoldConcat` | scripts/tf_plan_analyzer.py:227-243 | the parts of two lists all hold iff those of each list do |
| `PlanAnalyzer.FailingPart` | scripts/tf_plan_analyzer.py:232-242 | one failing part rejects the version |
| `PlanAnalyzer.PartHoldsParsed` | scripts/tf_plan_analyzer.py:231-242 | a parsed part holds iff its operator allows the comparison with its target |
| `PlanAnalyzer.PartHoldsUnparsed` | scripts/tf_plan_analyzer.py:228-230 | a part that does not parse constrains nothing |
| `PlanAnalyzer.Violates` | scripts/tf_plan_analyzer.py:233-242 | the five early-return tests reject the version iff the operator does not allow the comparison; any other operator rejects nothing |
| `PlanAnalyzer.EmptyRangeAcceptsAll` | scripts/tf_plan_analyzer.py:220-243 | the empty range accepts every version |
| `PlanAnalyzer.RangeConjunction` | scripts/tf_plan_analyzer.py:226-243 | a comma joins two ranges as a conjunction |
| `PlanAnalyzer.SingleConstraint` | scripts/tf_plan_analyzer.py:220-243 | a single `op target` range holds iff the operator allows the comparison |

## Left out

- The I/O around the modelled code is left out. This covers:
  - connecting to SQLite and `init_schema`;
  - reading canon files from disk (`load_canon`) and reading the plan from
    stdin or a file;
  - creating the fork's output file;
  - the CLI (`main`, argument parsing);
  - `format_text`, `report_canon_status`, the fetch helpers, `validate_regex`
    and `count_entries`.

  These are file, network or terminal operations. The model receives their
  results as values: a `CanonFile`, a `Plan`, a `Store`.
- SHA-256 is the `digest` parameter of the store and of `EntryHash`.
  - `DifferentTextsSeparateRows` assumes, as its precondition, that the
    digest is one-to-one.
  - `EntryHash` states only that its result is the 12-character prefix.
- Python's `re` module is the `RegexEngine` parameter: whether a pattern
  compiles, and a case-insensitive search. The constraint pattern of
  `_version_in_range` is spelt out in `ParseConstraint`. Its `\s` is the
  set of characters `str.isspace` accepts; its `\d` is read as ASCII digits.
- The clock (`_now()` and the date in `update_meta`) is a parameter:
  `now` or `today`.
- `f"{eff:.2f}"` is the `fmt` parameter of `ReasonText`. Floating-point
  rounding is not modelled: confidences are exact reals. The tolerance
  `1e-9` at `scripts/memory_lib.py:456` is kept, so an effective confidence
  of 0.7999999995 overrides. For the confidences the write operations
  produce (multiples of 0.1), it changes no outcome (`ToleranceOnGrid`).
- Strings are sequences of characters.
  - Lower-casing covers the ASCII letters only.
  - `isspace` (and so `strip` and the `\s+` collapse) accepts Python's full
    set of whitespace code points.
  - `isdigit` accepts ASCII digits only.
- JSON numbers are integers. No field the scripts compare or hash is a
  float.
- Rows are typed records rather than dictionaries, and stored rows always
  have every column. A missing `validated` (`fix.get("validated")` gives
  None) and the defaults of `conv.get("confidence", 0.0)` and
  `conv.get("distinct_sessions", 1)` survive as the `Option` parameters of
  `ShouldOverride` and `ShouldOverrideConvention`. The "personal" default
  of a missing scope is not modelled: both functions take the scope as a
  plain string, because a stored row always has one.
- `export_for_fork` creates a fresh database, so the new rows get ids from
  1 and the sessions table stays empty. Deleting an existing output file is
  not modelled.
- `query_with_priority` catches every exception on the canon side. In the
  model this is the case where the signatures file is missing, or its
  signatures are not objects whose `error_pattern` is a string; the canon
  results are then empty. An exception raised inside a custom regex engine
  has no counterpart.
- Where the scripts would raise on a malformed canon file they actually
  read, the model has a precondition instead of a crash. This covers, for
  example, a reported limit without `limit_name` and a
  `terraform_resources` entry that is not a string.
- `make_meta` is not part of this model. It only builds a dictionary from
  its arguments and the clock.
- Concurrency and transactions (`commit`) are not modelled. Each operation
  is atomic.
