/**
 * The canon library: deduplication of entries on a field, the short entry
 * hash, in-place update of a canon document's `_meta` block, matching an
 * error text against error signatures, and searching the canon files by
 * resource type and by tag. File loading is replaced by the decoded
 * contents (`CanonFile`), the regex engine by `RegexEngine`, SHA-256 and the
 * Python `str` of a non-string value by function parameters.
 */
module CanonLib {
  import opened Wrappers
  import opened Text
  import opened Seqs
  import opened Json

  // ---------------------------------------------------------------- dedup_by_field

  /** `entry.get(field, "")` */
  function FieldKey(e: Entry, field: string): Value {
    Get(e, field, Str(""))
  }

  /** Every truthy key can go into the `seen` set (a list or dict key would raise). */
  predicate KeysHashable(entries: seq<Entry>, field: string) {
    forall i :: 0 <= i < |entries| && Truthy(FieldKey(entries[i], field)) ==> Hashable(FieldKey(entries[i], field))
  }

  /** The set keys of a list of entries. */
  function KeySet(s: seq<Entry>, field: string): set<Value> {
    set i | 0 <= i < |s| :: SetKey(FieldKey(s[i], field))
  }

  lemma KeySetSnoc(s: seq<Entry>, e: Entry, field: string)
    ensures KeySet(s + [e], field) == KeySet(s, field) + {SetKey(FieldKey(e, field))}
  {
    var t := s + [e];
    forall v | v in KeySet(t, field) ensures v in KeySet(s, field) + {SetKey(FieldKey(e, field))} {
      var i :| 0 <= i < |t| && v == SetKey(FieldKey(t[i], field));
      if i < |s| { assert t[i] == s[i]; }
    }
    forall v | v in KeySet(s, field) ensures v in KeySet(t, field) {
      var i :| 0 <= i < |s| && v == SetKey(FieldKey(s[i], field));
      assert t[i] == s[i];
    }
    assert SetKey(FieldKey(t[|s|], field)) in KeySet(t, field);
  }

  lemma FreshKeyDistinct(s: seq<Entry>, field: string, key: Value)
    requires key !in KeySet(s, field)
    ensures forall i :: 0 <= i < |s| ==> SetKey(FieldKey(s[i], field)) != key
  {
    forall i | 0 <= i < |s| ensures SetKey(FieldKey(s[i], field)) != key {
      assert SetKey(FieldKey(s[i], field)) in KeySet(s, field);
    }
  }

  /** An entry whose key is already among the kept entries' keys is not the first of its key. */
  lemma SeenNotFirst(entries: seq<Entry>, field: string, n: int, kept: seq<Entry>)
    requires 0 <= n < |entries|
    requires forall x :: x in kept ==> x in entries[..n]
    requires SetKey(FieldKey(entries[n], field)) in KeySet(kept, field)
    ensures !FirstOfKey(entries, field, n)
  {
    var k :| 0 <= k < |kept| && SetKey(FieldKey(kept[k], field)) == SetKey(FieldKey(entries[n], field));
    assert kept[k] in entries[..n];
    var j :| 0 <= j < n && entries[..n][j] == kept[k];
    assert entries[j] == kept[k];
  }

  /** `entries[i]` has a truthy key and is the first entry with that key. */
  predicate FirstOfKey(entries: seq<Entry>, field: string, i: int)
    requires 0 <= i < |entries|
  {
    Truthy(FieldKey(entries[i], field)) &&
    forall j :: 0 <= j < i ==> SetKey(FieldKey(entries[j], field)) != SetKey(FieldKey(entries[i], field))
  }

  /**
   * What `dedup_by_field` has built after the first `n` entries: a
   * subsequence of them with truthy, pairwise different keys that holds every
   * first-of-its-key entry among them.
   */
  predicate DedupState(entries: seq<Entry>, field: string, n: int, result: seq<Entry>)
    requires 0 <= n <= |entries|
  {
    && IsSubseq(result, entries[..n])
    && (forall i :: 0 <= i < |result| ==> Truthy(FieldKey(result[i], field)))
    && (forall i, j :: 0 <= i < j < |result| ==> SetKey(FieldKey(result[i], field)) != SetKey(FieldKey(result[j], field)))
    && (forall i :: 0 <= i < n && FirstOfKey(entries, field, i) ==> entries[i] in result)
  }

  /** Keeping an entry whose truthy key is new. */
  lemma DedupKeep(entries: seq<Entry>, field: string, n: int, result: seq<Entry>)
    requires 0 <= n < |entries| && DedupState(entries, field, n, result)
    requires Truthy(FieldKey(entries[n], field)) && SetKey(FieldKey(entries[n], field)) !in KeySet(result, field)
    ensures DedupState(entries, field, n + 1, result + [entries[n]])
  {
    var r := result + [entries[n]];
    SubseqPrefixStep(result, entries, n);
    FreshKeyDistinct(result, field, SetKey(FieldKey(entries[n], field)));
    assert forall i :: 0 <= i < |result| ==> r[i] == result[i];
    forall i | 0 <= i < n + 1 && FirstOfKey(entries, field, i) ensures entries[i] in r {
      if i < n {
        assert entries[i] in result;
      } else {
        assert r[|result|] == entries[n];
      }
    }
  }

  /** Dropping an entry whose key is falsy or already kept. */
  lemma DedupSkip(entries: seq<Entry>, field: string, n: int, result: seq<Entry>)
    requires 0 <= n < |entries| && DedupState(entries, field, n, result)
    requires Truthy(FieldKey(entries[n], field)) ==> SetKey(FieldKey(entries[n], field)) in KeySet(result, field)
    ensures DedupState(entries, field, n + 1, result)
  {
    SubseqPrefixStep(result, entries, n);
    if Truthy(FieldKey(entries[n], field)) {
      SubseqMembers(result, entries[..n]);
      SeenNotFirst(entries, field, n, result);
    }
  }

  /** The entries that are the first of their truthy key, in input order. */
  function FirstsOf(entries: seq<Entry>, field: string): seq<Entry>
  {
    if |entries| == 0 then []
    else
      var n := |entries| - 1;
      FirstsOf(entries[..n], field) + (if FirstOfKey(entries, field, n) then [entries[n]] else [])
  }

  /** Whether `entries[n]` is first of its key depends only on the entries up to `n`. */
  lemma FirstOfKeyPrefix(entries: seq<Entry>, field: string, n: int)
    requires 0 <= n < |entries|
    ensures FirstOfKey(entries[..n + 1], field, n) == FirstOfKey(entries, field, n)
  {
    PrefixPrefix(entries, n);
    assert forall j :: 0 <= j <= n ==> entries[..n + 1][j] == entries[j];
  }

  /** Every truthy key met among the first `n` entries is a key of a kept entry. */
  lemma KeptKeys(entries: seq<Entry>, field: string, n: int, result: seq<Entry>)
    requires 0 <= n <= |entries| && DedupState(entries, field, n, result)
    ensures forall j :: 0 <= j < n && Truthy(FieldKey(entries[j], field)) ==>
              SetKey(FieldKey(entries[j], field)) in KeySet(result, field)
  {
    forall j | 0 <= j < n && Truthy(FieldKey(entries[j], field))
      ensures SetKey(FieldKey(entries[j], field)) in KeySet(result, field)
    {
      FirstOfKeyExists(entries, field, j);
      var i :| 0 <= i <= j && FirstOfKey(entries, field, i) &&
               SetKey(FieldKey(entries[i], field)) == SetKey(FieldKey(entries[j], field));
      var k :| 0 <= k < |result| && result[k] == entries[i];
      assert SetKey(FieldKey(result[k], field)) in KeySet(result, field);
    }
  }

  /** A truthy key that none of the kept entries carries is met for the first time. */
  lemma UnseenIsFirst(entries: seq<Entry>, field: string, n: int, result: seq<Entry>)
    requires 0 <= n < |entries| && DedupState(entries, field, n, result)
    requires Truthy(FieldKey(entries[n], field)) && SetKey(FieldKey(entries[n], field)) !in KeySet(result, field)
    ensures FirstOfKey(entries, field, n)
  {
    KeptKeys(entries, field, n, result);
  }

  /** One step of the loop: `result` stays `FirstsOf` the entries seen so far. */
  lemma FirstsOfStep(entries: seq<Entry>, field: string, n: int, result: seq<Entry>)
    requires 0 <= n < |entries| && DedupState(entries, field, n, result)
    requires result == FirstsOf(entries[..n], field)
    ensures FirstOfKey(entries, field, n) ==> FirstsOf(entries[..n + 1], field) == result + [entries[n]]
    ensures !FirstOfKey(entries, field, n) ==> FirstsOf(entries[..n + 1], field) == result
    ensures FirstOfKey(entries, field, n) <==>
              Truthy(FieldKey(entries[n], field)) && SetKey(FieldKey(entries[n], field)) !in KeySet(result, field)
  {
    PrefixPrefix(entries, n);
    FirstOfKeyPrefix(entries, field, n);
    if Truthy(FieldKey(entries[n], field)) {
      if SetKey(FieldKey(entries[n], field)) in KeySet(result, field) {
        SubseqMembers(result, entries[..n]);
        SeenNotFirst(entries, field, n, result);
      } else {
        UnseenIsFirst(entries, field, n, result);
      }
    }
  }

  /**
   * `dedup_by_field`: keeps, in input order, the first entry of each truthy
   * key; entries whose key is missing or falsy are dropped.
   */
  method DedupByField(entries: seq<Entry>, field: string) returns (result: seq<Entry>)
    requires KeysHashable(entries, field)
    ensures IsSubseq(result, entries)
    ensures forall i :: 0 <= i < |result| ==> Truthy(FieldKey(result[i], field))
    ensures forall i, j :: 0 <= i < j < |result| ==> SetKey(FieldKey(result[i], field)) != SetKey(FieldKey(result[j], field))
    ensures forall i :: 0 <= i < |entries| && FirstOfKey(entries, field, i) ==> entries[i] in result
    ensures result == FirstsOf(entries, field)
  {
    var seen: set<Value> := {};
    result := [];
    var n := 0;
    while n < |entries|
      invariant 0 <= n <= |entries|
      invariant DedupState(entries, field, n, result)
      invariant seen == KeySet(result, field)
      invariant result == FirstsOf(entries[..n], field)
    {
      var entry := entries[n];
      var key := FieldKey(entry, field);
      FirstsOfStep(entries, field, n, result);
      if Truthy(key) && SetKey(key) !in seen {
        DedupKeep(entries, field, n, result);
        KeySetSnoc(result, entry, field);
        seen := seen + {SetKey(key)};
        result := result + [entry];
      } else {
        DedupSkip(entries, field, n, result);
      }
      n := n + 1;
    }
    assert entries[..n] == entries;
  }

  /** Some entry at or before `i` is the first with `entries[i]`'s key. */
  lemma {:induction false} FirstOfKeyExists(entries: seq<Entry>, field: string, i: int)
    requires 0 <= i < |entries| && Truthy(FieldKey(entries[i], field))
    ensures exists j :: 0 <= j <= i && FirstOfKey(entries, field, j) &&
                        SetKey(FieldKey(entries[j], field)) == SetKey(FieldKey(entries[i], field))
    decreases i
  {
    if !FirstOfKey(entries, field, i) {
      var j :| 0 <= j < i && SetKey(FieldKey(entries[j], field)) == SetKey(FieldKey(entries[i], field));
      FirstOfKeyExists(entries, field, j);
    }
  }

  /**
   * A list that keeps every first-of-its-key entry (as `DedupByField`
   * promises) represents every truthy key of the input.
   */
  lemma DedupKeepsEveryKey(entries: seq<Entry>, field: string, result: seq<Entry>)
    requires forall i :: 0 <= i < |entries| && FirstOfKey(entries, field, i) ==> entries[i] in result
    ensures forall i :: 0 <= i < |entries| && Truthy(FieldKey(entries[i], field)) ==>
              exists k :: 0 <= k < |result| && SetKey(FieldKey(result[k], field)) == SetKey(FieldKey(entries[i], field))
  {
    forall i | 0 <= i < |entries| && Truthy(FieldKey(entries[i], field))
      ensures exists k :: 0 <= k < |result| && SetKey(FieldKey(result[k], field)) == SetKey(FieldKey(entries[i], field))
    {
      FirstOfKeyExists(entries, field, i);
      var j :| 0 <= j <= i && FirstOfKey(entries, field, j) &&
               SetKey(FieldKey(entries[j], field)) == SetKey(FieldKey(entries[i], field));
      var k :| 0 <= k < |result| && result[k] == entries[j];
    }
  }

  // ---------------------------------------------------------------- entry_hash

  /** Python's `str(v)`: a string is itself; anything else is what `show` prints. */
  function PyStr(v: Value, show: Value -> string): string {
    if v.Str? then v.s else show(v)
  }

  /** The text that is hashed: the fields' values in sorted field order, joined by `|`. */
  function HashInput(entry: Entry, fields: seq<string>, show: Value -> string): string {
    Join(HashParts(entry, SortStrings(fields), show), "|")
  }

  /** `[str(entry.get(f, "")) for f in names]` */
  function HashParts(entry: Entry, names: seq<string>, show: Value -> string): (parts: seq<string>)
    ensures |parts| == |names|
    ensures forall i :: 0 <= i < |names| ==> parts[i] == PyStr(Get(entry, names[i], Str("")), show)
  {
    seq(|names|, i requires 0 <= i < |names| => PyStr(Get(entry, names[i], Str("")), show))
  }

  /**
   * `entry_hash`: the first 12 characters of the digest of `HashInput`.
   * `digest` stands for SHA-256 of the UTF-8 bytes, printed in hex.
   */
  function EntryHash(entry: Entry, fields: seq<string>, digest: string -> string, show: Value -> string): (h: string)
    ensures |h| <= 12
    ensures |digest(HashInput(entry, fields, show))| >= 12 ==> |h| == 12
    ensures h <= digest(HashInput(entry, fields, show))
  {
    var d := digest(HashInput(entry, fields, show));
    if |d| <= 12 then d else d[..12]
  }

  /** Entries that agree on the named fields get the same hash, whatever else they hold. */
  lemma EntryHashOnlyNamedFields(a: Entry, b: Entry, fields: seq<string>, digest: string -> string, show: Value -> string)
    requires forall f :: f in fields ==> Get(a, f, Str("")) == Get(b, f, Str(""))
    ensures EntryHash(a, fields, digest, show) == EntryHash(b, fields, digest, show)
  {
    var names := SortStrings(fields);
    forall i | 0 <= i < |names| ensures Get(a, names[i], Str("")) == Get(b, names[i], Str("")) {
      assert names[i] in multiset(fields);
    }
    assert HashParts(a, names, show) == HashParts(b, names, show);
  }

  /** The order in which the fields are listed does not change the hash. */
  lemma EntryHashFieldOrder(e: Entry, f1: seq<string>, f2: seq<string>, digest: string -> string, show: Value -> string)
    requires multiset(f1) == multiset(f2)
    ensures EntryHash(e, f1, digest, show) == EntryHash(e, f2, digest, show)
  {
    SortStringsPermutationInvariant(f1, f2);
  }

  // ---------------------------------------------------------------- update_meta

  /** `meta[k] = v` for each `(k, v)` in order. */
  function ApplyOverrides(meta: map<string, Value>, overrides: seq<(string, string)>): map<string, Value>
    decreases |overrides|
  {
    if overrides == [] then meta
    else
      var last := overrides[|overrides| - 1];
      ApplyOverrides(meta, overrides[..|overrides| - 1])[last.0 := Str(last.1)]
  }

  lemma ApplyOverridesStep(meta: map<string, Value>, overrides: seq<(string, string)>, n: int)
    requires 0 <= n < |overrides|
    ensures ApplyOverrides(meta, overrides[..n + 1]) ==
              ApplyOverrides(meta, overrides[..n])[overrides[n].0 := Str(overrides[n].1)]
  {
    PrefixPrefix(overrides, n);
  }

  /** A second assignment to a key replaces the first. */
  lemma UpdateTwice(m: map<string, Value>, k: string, v1: Value, v2: Value)
    ensures m[k := v1][k := v2] == m[k := v2]
  {
  }

  /** Keyword arguments: no name is given twice. */
  predicate DistinctNames(overrides: seq<(string, string)>) {
    forall i, j :: 0 <= i < j < |overrides| ==> overrides[i].0 != overrides[j].0
  }

  /** The `_meta` block that `update_meta` leaves behind, from the old one. */
  function UpdatedMeta(meta: map<string, Value>, today: string, overrides: seq<(string, string)>): map<string, Value> {
    ApplyOverrides(meta["date" := Str(today)], overrides)
  }

  /**
   * After `update_meta`, each override holds its value, `date` is today
   * unless overridden, and every other key of `_meta` is as it was.
   */
  lemma {:induction false} UpdatedMetaContents(meta: map<string, Value>, today: string, overrides: seq<(string, string)>)
    requires DistinctNames(overrides)
    ensures forall i :: 0 <= i < |overrides| ==>
              overrides[i].0 in UpdatedMeta(meta, today, overrides) &&
              UpdatedMeta(meta, today, overrides)[overrides[i].0] == Str(overrides[i].1)
    ensures (forall i :: 0 <= i < |overrides| ==> overrides[i].0 != "date") ==>
              "date" in UpdatedMeta(meta, today, overrides) && UpdatedMeta(meta, today, overrides)["date"] == Str(today)
    ensures forall k :: k != "date" && (forall i :: 0 <= i < |overrides| ==> overrides[i].0 != k) ==>
              (k in UpdatedMeta(meta, today, overrides) <==> k in meta) &&
              (k in meta ==> UpdatedMeta(meta, today, overrides)[k] == meta[k])
    decreases |overrides|
  {
    if overrides != [] {
      var init := overrides[..|overrides| - 1];
      var last := overrides[|overrides| - 1];
      assert forall i :: 0 <= i < |init| ==> init[i] == overrides[i];
      UpdatedMetaContents(meta, today, init);
      var m0 := UpdatedMeta(meta, today, init);
      var m := UpdatedMeta(meta, today, overrides);
      assert m == m0[last.0 := Str(last.1)];
      forall i | 0 <= i < |overrides|
        ensures overrides[i].0 in m && m[overrides[i].0] == Str(overrides[i].1)
      {
        if i < |init| {
          assert overrides[i].0 != last.0;
        }
      }
    }
  }

  /** A canon document held in memory, as `json.load` returns it. */
  class CanonDocument {
    var data: map<string, Value>

    constructor (data0: map<string, Value>)
      ensures data == data0
    {
      data := data0;
    }

    /**
     * `update_meta`: creates `_meta` when absent, stamps `date`, applies the
     * overrides in order and returns the document. A `_meta` that is not an
     * object cannot be assigned into: the call fails and nothing changes.
     */
    method UpdateMeta(today: string, overrides: seq<(string, string)>) returns (r: Result<map<string, Value>, string>)
      requires DistinctNames(overrides)
      modifies this
      ensures "_meta" in old(data) && !old(data)["_meta"].Obj? ==> r == Err("TypeError") && data == old(data)
      ensures !("_meta" in old(data) && !old(data)["_meta"].Obj?) ==>
                var meta := if "_meta" in old(data) then old(data)["_meta"].fields else map[];
                r == Ok(data) && data == old(data)["_meta" := Obj(UpdatedMeta(meta, today, overrides))]
    {
      if "_meta" !in data {
        data := data["_meta" := Obj(map[])];
      }
      if !data["_meta"].Obj? {
        return Err("TypeError");
      }
      data := data["_meta" := Obj(data["_meta"].fields["date" := Str(today)])];
      ghost var base := data["_meta"].fields;
      ghost var doc := data;
      var n := 0;
      while n < |overrides|
        invariant 0 <= n <= |overrides|
        invariant data == doc["_meta" := Obj(ApplyOverrides(base, overrides[..n]))]
      {
        var (k, v) := overrides[n];
        ghost var cur := ApplyOverrides(base, overrides[..n]);
        data := data["_meta" := Obj(data["_meta"].fields[k := Str(v)])];
        ApplyOverridesStep(base, overrides, n);
        UpdateTwice(doc, "_meta", Obj(cur), Obj(cur[k := Str(v)]));
        n := n + 1;
      }
      assert overrides[..n] == overrides;
      UpdateTwice(old(data), "_meta", doc["_meta"], Obj(ApplyOverrides(base, overrides)));
      r := Ok(data);
    }
  }

  // ---------------------------------------------------------------- match_error

  /**
   * The parts of Python's `re` the matcher relies on: whether a pattern
   * compiles, and `re.search(pattern, text, re.IGNORECASE)` for one that does.
   */
  datatype RegexEngine = RegexEngine(compiles: string -> bool, searchIgnoreCase: (string, string) -> bool)

  /** A signature's `error_pattern` (default `""`) matches the error text. */
  predicate SignatureMatches(re: RegexEngine, errorText: string, sig: Entry) {
    HasStr(sig, "error_pattern") &&
    var pattern := StrField(sig, "error_pattern");
    if re.compiles(pattern) then re.searchIgnoreCase(pattern, errorText)
    else IsSubstring(Lower(pattern), Lower(errorText))
  }

  function MatchesText(re: RegexEngine, errorText: string): Entry -> bool {
    sig => SignatureMatches(re, errorText, sig)
  }

  /**
   * `match_error`: the signatures whose pattern matches, in input order; a
   * pattern that is not a valid regex is tried as a case-blind substring.
   */
  method MatchError(re: RegexEngine, errorText: string, signatures: seq<Entry>) returns (matches: seq<Entry>)
    requires forall i :: 0 <= i < |signatures| ==> HasStr(signatures[i], "error_pattern")
    ensures matches == Filter(signatures, MatchesText(re, errorText))
    ensures IsSubseq(matches, signatures)
  {
    matches := [];
    var n := 0;
    while n < |signatures|
      invariant 0 <= n <= |signatures|
      invariant matches == Filter(signatures[..n], MatchesText(re, errorText))
    {
      var sig := signatures[n];
      var pattern := StrField(sig, "error_pattern");
      var hit: bool;
      if re.compiles(pattern) {
        hit := re.searchIgnoreCase(pattern, errorText);
      } else {
        hit := IsSubstring(Lower(pattern), Lower(errorText));
      }
      FilterPrefix(signatures, n, MatchesText(re, errorText));
      if hit {
        matches := matches + [sig];
      }
      n := n + 1;
    }
    assert signatures[..n] == signatures;
    FilterIsSubseq(signatures, MatchesText(re, errorText));
  }

  // ---------------------------------------------------------------- search results

  const ErrorSignaturesFile := "error-signatures.json"
  const SgInteractionsFile := "sg-interactions.json"
  const AwsLimitsFile := "aws-limits.json"

  /** One search result: the canon file it came from and the matched entry. */
  datatype Hit = Hit(source: string, entry: Entry)

  function Hits(source: string, entries: seq<Entry>): (r: seq<Hit>)
    ensures |r| == |entries|
    ensures forall i :: 0 <= i < |r| ==> r[i] == Hit(source, entries[i])
  {
    seq(|entries|, i requires 0 <= i < |entries| => Hit(source, entries[i]))
  }

  lemma HitsSnoc(source: string, entries: seq<Entry>, e: Entry)
    ensures Hits(source, entries + [e]) == Hits(source, entries) + [Hit(source, e)]
  {
  }

  /** The loop step of a loop appending the hits of `entries` under `p` to `results`. */
  lemma HitsStep(results: seq<Hit>, source: string, entries: seq<Entry>, n: int, p: Entry -> bool)
    requires 0 <= n < |entries|
    ensures results + Hits(source, Filter(entries[..n + 1], p)) ==
              var before := results + Hits(source, Filter(entries[..n], p));
              if p(entries[n]) then before + [Hit(source, entries[n])] else before
  {
    var kept := Filter(entries[..n], p);
    PrefixSnoc(entries, n);
    FilterSnoc(entries[..n], entries[n], p);
    if p(entries[n]) {
      HitsSnoc(source, kept, entries[n]);
      assert results + (Hits(source, kept) + [Hit(source, entries[n])]) ==
             (results + Hits(source, kept)) + [Hit(source, entries[n])];
    } else {
      assert kept + [] == kept;
    }
  }

  /**
   * The list `key` of a loaded canon file, or nothing when the file could not
   * be loaded. A `key` that does not hold a list of objects, on which the
   * scripts would raise, also reads as nothing; every member that iterates
   * the list requires the well-formed shape.
   */
  function FileList(file: CanonFile, key: string): (r: seq<Entry>)
    ensures file.Some? && HasObjects(file.value, key) ==> r == ObjectsField(file.value, key)
  {
    if file.None? || !HasObjects(file.value, key) then [] else ObjectsField(file.value, key)
  }

  /** A loaded file's list `key` holds objects whose `field` is absent or a string. */
  predicate StrFieldsIn(file: CanonFile, key: string, field: string) {
    file.Some? ==> (HasObjects(file.value, key) &&
      forall e :: e in ObjectsField(file.value, key) ==> HasStr(e, field))
  }

  /** A loaded file's list `key` holds objects whose `field` iterates over strings. */
  predicate StringsFieldsIn(file: CanonFile, key: string, field: string) {
    file.Some? ==> (HasObjects(file.value, key) &&
      forall e :: e in ObjectsField(file.value, key) ==> HasStrings(e, field))
  }

  // ---------------------------------------------------------------- search_by_resource

  /** `rt.replace("aws_", "").split("_")[0]`: the service a resource type names. */
  function ServiceHint(rt: string): (hint: string)
    ensures '_' !in hint
  {
    var stem := RemoveAll(rt, "aws_");
    SplitPartsLackSep(stem, '_');
    Split(stem, '_')[0]
  }

  /** The signature names the resource type in its `resource` field. */
  predicate SignatureNamesResource(rt: string, sig: Entry) {
    HasStr(sig, "resource") && IsSubstring(rt, Lower(StrField(sig, "resource")))
  }

  /** One of the pattern's `terraform_resources` contains the resource type. */
  predicate PatternNamesResource(rt: string, pattern: Entry) {
    HasStrings(pattern, "terraform_resources") &&
    exists i :: 0 <= i < |StringsField(pattern, "terraform_resources")| &&
                IsSubstring(rt, Lower(StringsField(pattern, "terraform_resources")[i]))
  }

  /** The limit's `service` is the resource type's service hint. */
  predicate LimitForService(rt: string, limit: Entry) {
    HasStr(limit, "service") && ServiceHint(rt) == Lower(StrField(limit, "service"))
  }

  function SignatureFilter(rt: string): Entry -> bool { e => SignatureNamesResource(rt, e) }
  function PatternFilter(rt: string): Entry -> bool { e => PatternNamesResource(rt, e) }
  function LimitFilter(rt: string): Entry -> bool { e => LimitForService(rt, e) }

  predicate ResourceFilesWellFormed(sigs: CanonFile, sg: CanonFile, limits: CanonFile) {
    StrFieldsIn(sigs, "signatures", "resource") &&
    StringsFieldsIn(sg, "patterns", "terraform_resources") &&
    StrFieldsIn(limits, "limits", "service")
  }

  /**
   * What `search_by_resource` returns for the lowercased type `rt`: matching
   * signatures, then matching sg patterns, then matching limits, each in file
   * order; a file that could not be loaded contributes nothing.
   */
  function ResourceHits(rt: string, sigs: CanonFile, sg: CanonFile, limits: CanonFile): seq<Hit>
    requires ResourceFilesWellFormed(sigs, sg, limits)
  {
    Hits(ErrorSignaturesFile, Filter(FileList(sigs, "signatures"), SignatureFilter(rt))) +
    Hits(SgInteractionsFile, Filter(FileList(sg, "patterns"), PatternFilter(rt))) +
    Hits(AwsLimitsFile, Filter(FileList(limits, "limits"), LimitFilter(rt)))
  }

  /** Appends the hits of `entries` under `p`, one entry at a time. */
  method AppendMatching(results: seq<Hit>, source: string, entries: seq<Entry>, p: Entry -> bool)
    returns (out: seq<Hit>)
    ensures out == results + Hits(source, Filter(entries, p))
  {
    out := results;
    var n := 0;
    while n < |entries|
      invariant 0 <= n <= |entries|
      invariant out == results + Hits(source, Filter(entries[..n], p))
    {
      HitsStep(results, source, entries, n, p);
      if p(entries[n]) {
        out := out + [Hit(source, entries[n])];
      }
      n := n + 1;
    }
    assert entries[..n] == entries;
  }

  /** The inner loop over `terraform_resources`, stopping at the first that contains `rt`. */
  method NamesResource(rt: string, pattern: Entry) returns (found: bool)
    requires HasStrings(pattern, "terraform_resources")
    ensures found == PatternNamesResource(rt, pattern)
  {
    var resources := StringsField(pattern, "terraform_resources");
    found := false;
    var n := 0;
    while n < |resources|
      invariant 0 <= n <= |resources|
      invariant forall i :: 0 <= i < n ==> !IsSubstring(rt, Lower(resources[i]))
    {
      if IsSubstring(rt, Lower(resources[n])) {
        found := true;
        break;
      }
      n := n + 1;
    }
  }

  /**
   * `search_by_resource`: the signatures whose `resource` contains the
   * lowercased type, the sg patterns (each at most once) one of whose
   * resources contains it, and the limits whose service is its service hint.
   */
  method SearchByResource(resourceType: string, sigs: CanonFile, sg: CanonFile, limits: CanonFile)
    returns (results: seq<Hit>)
    requires ResourceFilesWellFormed(sigs, sg, limits)
    ensures results == ResourceHits(Lower(resourceType), sigs, sg, limits)
  {
    var rt := Lower(resourceType);
    var signatures, patterns, limitList := FileList(sigs, "signatures"), FileList(sg, "patterns"), FileList(limits, "limits");
    results := AppendMatching([], ErrorSignaturesFile, signatures, SignatureFilter(rt));
    EmptyConcat(Hits(ErrorSignaturesFile, Filter(signatures, SignatureFilter(rt))));
    results := AppendPatterns(results, rt, patterns);
    results := AppendMatching(results, AwsLimitsFile, limitList, LimitFilter(rt));
  }

  /** The loop over sg patterns: each pattern is added at most once, on its first matching resource. */
  method AppendPatterns(results: seq<Hit>, rt: string, patterns: seq<Entry>) returns (out: seq<Hit>)
    requires forall e :: e in patterns ==> HasStrings(e, "terraform_resources")
    ensures out == results + Hits(SgInteractionsFile, Filter(patterns, PatternFilter(rt)))
  {
    out := results;
    var n := 0;
    while n < |patterns|
      invariant 0 <= n <= |patterns|
      invariant out == results + Hits(SgInteractionsFile, Filter(patterns[..n], PatternFilter(rt)))
    {
      var pattern := patterns[n];
      var found := NamesResource(rt, pattern);
      HitsStep(results, SgInteractionsFile, patterns, n, PatternFilter(rt));
      if found {
        out := out + [Hit(SgInteractionsFile, pattern)];
      }
      n := n + 1;
    }
    assert patterns[..n] == patterns;
  }

  /**
   * For `aws_<a>_<b>` the service hint is `<a>`: the hint is the word after
   * `aws_`, not a service looked up from the type.
   */
  lemma ServiceHintOfType(a: string, b: string)
    requires '_' !in a
    requires !IsSubstring("aws_", a + "_" + b)
    ensures ServiceHint("aws_" + a + "_" + b) == a
  {
    var rest := a + "_" + b;
    var s := "aws_" + a + "_" + b;
    assert s == "aws_" + rest;
    assert s[..4] == "aws_" && s[4..] == rest;
    assert RemoveAll(s, "aws_") == rest;
    SplitAppend(a, b, '_');
    SplitNoSep(a, '_');
  }

  /** `aws_s3_bucket` hints `s3`. */
  lemma ServiceHintS3Bucket()
    ensures ServiceHint("aws_s3_bucket") == "s3"
  {
    var a, b := "s3", "bucket";
    assert a + "_" + b == "s3_bucket";
    RemoveAllNoMatch(a + "_" + b, "aws_");
    ServiceHintOfType(a, b);
    assert "aws_" + a + "_" + b == "aws_s3_bucket";
  }

  /** `aws_security_group` hints `security`, not the `ec2` service its limits are filed under. */
  lemma ServiceHintSecurityGroup()
    ensures ServiceHint("aws_security_group") == "security"
    ensures ServiceHint("aws_security_group") != "ec2"
  {
    var a, b := "security", "group";
    assert a + "_" + b == "security_group";
    RemoveAllNoMatch(a + "_" + b, "aws_");
    ServiceHintOfType(a, b);
    assert "aws_" + a + "_" + b == "aws_security_group";
  }

  lemma RemoveAllNoMatch(s: string, pat: string)
    requires pat != [] && forall i :: 0 <= i < |s| ==> s[i] != pat[0]
    ensures !IsSubstring(pat, s)
  {
    forall i | 0 <= i <= |s| - |pat| ensures !OccursAt(pat, s, i) {
      assert s[i..i + |pat|][0] == s[i];
    }
  }

  // ---------------------------------------------------------------- search_by_tags

  /** `{t.lower() for t in tags}` */
  function LowerSet(tags: seq<string>): set<string> {
    set i | 0 <= i < |tags| :: Lower(tags[i])
  }

  /** The entry's lowercased `tags` share one with the lowercased query. */
  predicate TagsIntersect(query: set<string>, entry: Entry) {
    HasStrings(entry, "tags") && query * LowerSet(StringsField(entry, "tags")) != {}
  }

  function TagFilter(query: set<string>): Entry -> bool { e => TagsIntersect(query, e) }

  predicate TagFilesWellFormed(sigs: CanonFile, sg: CanonFile) {
    StringsFieldsIn(sigs, "signatures", "tags") && StringsFieldsIn(sg, "patterns", "tags")
  }

  /** What `search_by_tags` returns: tagged signatures, then tagged sg patterns. */
  function TagHits(tags: seq<string>, sigs: CanonFile, sg: CanonFile): seq<Hit>
    requires TagFilesWellFormed(sigs, sg)
  {
    Hits(ErrorSignaturesFile, Filter(FileList(sigs, "signatures"), TagFilter(LowerSet(tags)))) +
    Hits(SgInteractionsFile, Filter(FileList(sg, "patterns"), TagFilter(LowerSet(tags))))
  }

  /** `search_by_tags`: the entries of both files that carry one of the tags, ignoring case. */
  method SearchByTags(tags: seq<string>, sigs: CanonFile, sg: CanonFile) returns (results: seq<Hit>)
    requires TagFilesWellFormed(sigs, sg)
    ensures results == TagHits(tags, sigs, sg)
  {
    var query := LowerSet(tags);
    var signatures := FileList(sigs, "signatures");
    var patterns := FileList(sg, "patterns");
    results := AppendMatching([], ErrorSignaturesFile, signatures, TagFilter(query));
    EmptyConcat(Hits(ErrorSignaturesFile, Filter(signatures, TagFilter(query))));
    results := AppendMatching(results, SgInteractionsFile, patterns, TagFilter(query));
  }

  /** Each hit of a filtered file names that file and satisfies the filter. */
  lemma HitsOfFilter(source: string, entries: seq<Entry>, p: Entry -> bool)
    ensures forall h :: h in Hits(source, Filter(entries, p)) ==> h.source == source && p(h.entry)
  {
    var kept := Filter(entries, p);
    forall h | h in Hits(source, kept) ensures h.source == source && p(h.entry) {
      var i :| 0 <= i < |kept| && Hits(source, kept)[i] == h;
    }
  }

  /** A hit of `search_by_tags` carries one of the query tags, whatever its case. */
  lemma TagHitsCarryTag(tags: seq<string>, sigs: CanonFile, sg: CanonFile)
    requires TagFilesWellFormed(sigs, sg)
    ensures forall h :: h in TagHits(tags, sigs, sg) ==>
              TagsIntersect(LowerSet(tags), h.entry) && h.source in {ErrorSignaturesFile, SgInteractionsFile}
  {
    HitsOfFilter(ErrorSignaturesFile, FileList(sigs, "signatures"), TagFilter(LowerSet(tags)));
    HitsOfFilter(SgInteractionsFile, FileList(sg, "patterns"), TagFilter(LowerSet(tags)));
  }

  /** A query none of whose tags any entry carries finds nothing. */
  lemma UnknownTagFindsNothing(tags: seq<string>, sigs: CanonFile, sg: CanonFile)
    requires TagFilesWellFormed(sigs, sg)
    requires forall e :: e in FileList(sigs, "signatures") ==> LowerSet(StringsField(e, "tags")) * LowerSet(tags) == {}
    requires forall e :: e in FileList(sg, "patterns") ==> LowerSet(StringsField(e, "tags")) * LowerSet(tags) == {}
    ensures TagHits(tags, sigs, sg) == []
  {
    var q := LowerSet(tags);
    FilterNone(FileList(sigs, "signatures"), TagFilter(q));
    FilterNone(FileList(sg, "patterns"), TagFilter(q));
  }
}
