/**
 * The Memories store: three tables of learned knowledge (fixes, conventions,
 * quirks) plus the set of known sessions, the confidence model over
 * conventions, the rule that decides whether a memory overrides the canon,
 * the merge of canon and memory results, and the export of a scope-filtered
 * fork.
 *
 * The database is a `Store` object whose tables are sequences in row-id
 * order. SHA-256 is the store's `digest` function and the clock is a `now`
 * parameter of every write. A write that violates the scope check or a
 * session foreign key returns `Err(IntegrityError)` and changes nothing.
 */
module MemoryLib {
  import opened Wrappers
  import opened Text
  import opened Seqs
  import opened Json
  import opened CanonLib

  // ================================================================ constants

  const ConfidenceBase: real := 0.5
  const CorrectionDelta: real := 0.2
  const ReinforceDelta: real := 0.1
  const ContradictionReset: real := 0.3
  const SingleSessionCeiling: real := 0.7
  const SessionBonusPer: real := 0.05
  const SessionBonusCap: real := 0.2
  const ConfidenceCap: real := 1.0

  /** A personal convention overrides the canon from this effective confidence on ... */
  const OverrideThreshold: real := 0.8
  /** ... less this tolerance, which the comparison subtracts. */
  const OverrideTolerance: real := 0.000000001

  function Min(a: real, b: real): real {
    if a <= b then a else b
  }

  // ================================================================ rows

  /** The values the schema's CHECK constraint allows in a `scope` column. */
  datatype Scope = Personal | Team | Org

  function ScopeName(s: Scope): string {
    match s
    case Personal => "personal"
    case Team => "team"
    case Org => "org"
  }

  /** The scope CHECK constraint: a scope string is accepted exactly when it names a scope. */
  function ParseScope(s: string): (r: Option<Scope>)
    ensures r.Some? <==> s == "personal" || s == "team" || s == "org"
    ensures r.Some? ==> ScopeName(r.value) == s
  {
    if s == "personal" then Some(Personal)
    else if s == "team" then Some(Team)
    else if s == "org" then Some(Org)
    else None
  }

  datatype Fix = Fix(
    id: nat,
    errorHash: string,
    errorText: string,
    rootCause: string,
    fix: string,
    resource: Option<string>,
    provider: Option<string>,
    validated: int,
    scope: Scope,
    createdAt: string,
    updatedAt: string,
    hitCount: nat,
    sessionId: Option<string>)

  datatype Convention = Convention(
    id: nat,
    category: string,
    pattern: string,
    example: Option<string>,
    source: string,
    scope: Scope,
    createdAt: string,
    updatedAt: string,
    confidence: real,
    sessionId: Option<string>,
    distinctSessions: nat)

  datatype Quirk = Quirk(
    id: nat,
    service: string,
    description: string,
    region: Option<string>,
    workaround: Option<string>,
    scope: Scope,
    createdAt: string,
    updatedAt: string,
    sessionId: Option<string>)

  /** `sqlite3.IntegrityError` (scope check or session foreign key) and the `ValueError` of a missing convention. */
  datatype StoreError = IntegrityError | NotFound(id: int)

  /** The result of a write together with the table it leaves behind. */
  datatype Outcome<R, T> = Outcome(result: Result<R, StoreError>, rows: seq<T>)

  /** A session reference satisfies the foreign key: it is null or names a known session. */
  predicate SessionOk(s: Option<string>, sessions: set<string>) {
    s.None? || s.value in sessions
  }

  /** A Python truthy optional string: present and non-empty. */
  predicate Given(s: Option<string>) {
    s.Some? && s.value != ""
  }

  // ================================================================ table invariants

  /** Row ids count up from 1, hit counts are positive, sessions exist, and no two rows share an error hash. */
  predicate FixesValid(fs: seq<Fix>, sessions: set<string>) {
    (forall i :: 0 <= i < |fs| ==> fs[i].id == i + 1 && fs[i].hitCount >= 1 && SessionOk(fs[i].sessionId, sessions)) &&
    (forall i, j :: 0 <= i < j < |fs| ==> fs[i].errorHash != fs[j].errorHash)
  }

  /** Row ids count up from 1, confidences lie in [0, 1], session counts are positive, sessions exist, and (category, pattern) is unique. */
  predicate ConventionsValid(cs: seq<Convention>, sessions: set<string>) {
    (forall i :: 0 <= i < |cs| ==>
       cs[i].id == i + 1 && 0.0 <= cs[i].confidence <= ConfidenceCap && cs[i].distinctSessions >= 1 &&
       SessionOk(cs[i].sessionId, sessions)) &&
    (forall i, j :: 0 <= i < j < |cs| ==> (cs[i].category, cs[i].pattern) != (cs[j].category, cs[j].pattern))
  }

  predicate QuirksValid(qs: seq<Quirk>, sessions: set<string>) {
    forall i :: 0 <= i < |qs| ==> qs[i].id == i + 1 && SessionOk(qs[i].sessionId, sessions)
  }

  // ================================================================ error hashing

  /** `_error_hash`: the digest of the normalised error text. */
  function ErrorHash(digest: string -> string, errorText: string): string {
    digest(Normalize(errorText))
  }

  /** Error texts that differ only in letter case, surrounding whitespace or the spelling of inner whitespace runs share a hash. */
  lemma VariantsShareHash(digest: string -> string, a: string, w1: string, w2: string, b: string, pad1: string, pad2: string)
    requires w1 != [] && AllSpace(w1) && w2 != [] && AllSpace(w2)
    requires a != [] && !IsSpace(a[0]) && b != [] && !IsSpace(b[|b| - 1])
    requires AllSpace(pad1) && AllSpace(pad2)
    ensures ErrorHash(digest, a + w1 + b) == ErrorHash(digest, pad1 + Lower(a + w2 + b) + pad2)
  {
    NormalizeIgnoresSpacing(a, w1, w2, b);
    LowerIdempotent(a + w2 + b);
    NormalizeIgnoresCase(a + w2 + b, Lower(a + w2 + b));
    NormalizeIgnoresPadding(pad1, Lower(a + w2 + b), pad2);
  }

  // ================================================================ record_fix

  /** The first fix row with the given hash: `SELECT ... WHERE error_hash = ?` then `fetchone()`. */
  function FindFix(fs: seq<Fix>, h: string): (r: Option<nat>)
    ensures r.Some? ==> r.value < |fs| && fs[r.value].errorHash == h && forall j :: 0 <= j < r.value ==> fs[j].errorHash != h
    ensures r.None? ==> forall j :: 0 <= j < |fs| ==> fs[j].errorHash != h
  {
    if fs == [] then None
    else if fs[0].errorHash == h then Some(0)
    else
      var r := FindFix(fs[1..], h);
      if r.Some? then Some(r.value + 1) else None
  }

  /** A repeat report: one more hit, refreshed `updated_at`. */
  function HitAgain(f: Fix, now: string): Fix {
    f.(hitCount := f.hitCount + 1, updatedAt := now)
  }

  /** What `record_fix` returns and leaves in the fixes table, for an error text whose hash is `h`. */
  function RecordFixOn(
    fs: seq<Fix>, sessions: set<string>, h: string,
    errorText: string, rootCause: string, fix: string, resource: Option<string>, provider: Option<string>,
    validated: int, scope: Option<Scope>, sessionId: Option<string>, now: string): Outcome<nat, Fix>
  {
    match FindFix(fs, h)
    case Some(i) => Outcome(Ok(fs[i].id), fs[i := HitAgain(fs[i], now)])
    case None => InsertFix(fs, sessions, h, errorText, rootCause, fix, resource, provider, validated, scope, sessionId, now)
  }

  /** The insert of `record_fix`, refused when the scope or the session is not accepted. */
  function InsertFix(
    fs: seq<Fix>, sessions: set<string>, h: string,
    errorText: string, rootCause: string, fix: string, resource: Option<string>, provider: Option<string>,
    validated: int, scope: Option<Scope>, sessionId: Option<string>, now: string): Outcome<nat, Fix>
  {
    if scope.None? || !SessionOk(sessionId, sessions) then Outcome(Err(IntegrityError), fs)
    else
      var id := |fs| + 1;
      Outcome(Ok(id), fs + [Fix(id, h, errorText, rootCause, fix, resource, provider, validated,
                                scope.value, now, now, 1, sessionId)])
  }

  lemma RecordFixKeepsValid(
    fs: seq<Fix>, sessions: set<string>, h: string,
    errorText: string, rootCause: string, fix: string, resource: Option<string>, provider: Option<string>,
    validated: int, scope: Option<Scope>, sessionId: Option<string>, now: string)
    requires FixesValid(fs, sessions)
    ensures FixesValid(RecordFixOn(fs, sessions, h, errorText, rootCause, fix, resource, provider, validated, scope, sessionId, now).rows, sessions)
  {
    var rows := RecordFixOn(fs, sessions, h, errorText, rootCause, fix, resource, provider, validated, scope, sessionId, now).rows;
    var found := FindFix(fs, h);
    if found.Some? {
      HitKeepsValid(fs, sessions, found.value, now);
      assert rows == fs[found.value := HitAgain(fs[found.value], now)];
    } else {
      InsertFixKeepsValid(fs, sessions, h, errorText, rootCause, fix, resource, provider, validated, scope, sessionId, now);
      assert rows == InsertFix(fs, sessions, h, errorText, rootCause, fix, resource, provider, validated, scope, sessionId, now).rows;
    }
  }

  lemma HitKeepsValid(fs: seq<Fix>, sessions: set<string>, i: nat, now: string)
    requires i < |fs| && FixesValid(fs, sessions)
    ensures FixesValid(fs[i := HitAgain(fs[i], now)], sessions)
  {
  }

  lemma InsertFixKeepsValid(
    fs: seq<Fix>, sessions: set<string>, h: string,
    errorText: string, rootCause: string, fix: string, resource: Option<string>, provider: Option<string>,
    validated: int, scope: Option<Scope>, sessionId: Option<string>, now: string)
    requires FixesValid(fs, sessions)
    requires FindFix(fs, h).None?
    ensures FixesValid(InsertFix(fs, sessions, h, errorText, rootCause, fix, resource, provider, validated, scope, sessionId, now).rows, sessions)
  {
  }

  /**
   * Reporting again an error with the same hash (the same normalised text)
   * returns the same id, adds exactly one hit, refreshes `updated_at`, and
   * changes no other column and no other row.
   */
  lemma RepeatedFixBumpsHitCount(
    fs: seq<Fix>, sessions: set<string>, h: string,
    text1: string, text2: string, rootCause: string, fix: string, resource: Option<string>, provider: Option<string>,
    validated: int, scope: Option<Scope>, sessionId: Option<string>, now1: string, now2: string,
    rootCause2: string, fix2: string, resource2: Option<string>, provider2: Option<string>,
    validated2: int, scope2: Option<Scope>, sessionId2: Option<string>)
    requires FixesValid(fs, sessions)
    requires RecordFixOn(fs, sessions, h, text1, rootCause, fix, resource, provider, validated, scope, sessionId, now1).result.Ok?
    ensures
      var first := RecordFixOn(fs, sessions, h, text1, rootCause, fix, resource, provider, validated, scope, sessionId, now1);
      var second := RecordFixOn(first.rows, sessions, h, text2, rootCause2, fix2, resource2, provider2, validated2, scope2, sessionId2, now2);
      var k := first.result.value - 1;
      second.result == first.result && 0 <= k < |first.rows| && |second.rows| == |first.rows| &&
      second.rows[k] == first.rows[k].(hitCount := first.rows[k].hitCount + 1, updatedAt := now2) &&
      forall j :: 0 <= j < |first.rows| && j != k ==> second.rows[j] == first.rows[j]
  {
    var first := RecordFixOn(fs, sessions, h, text1, rootCause, fix, resource, provider, validated, scope, sessionId, now1);
    var k := RecordedRow(fs, sessions, h, text1, rootCause, fix, resource, provider, validated, scope, sessionId, now1);
    var second := RecordFixOn(first.rows, sessions, h, text2, rootCause2, fix2, resource2, provider2, validated2, scope2, sessionId2, now2);
    assert second == Outcome(Ok(first.rows[k].id), first.rows[k := HitAgain(first.rows[k], now2)]);
  }

  /** After a successful `record_fix` the row of the hash is the one the returned id names, and the first with that hash. */
  lemma RecordedRow(
    fs: seq<Fix>, sessions: set<string>, h: string,
    errorText: string, rootCause: string, fix: string, resource: Option<string>, provider: Option<string>,
    validated: int, scope: Option<Scope>, sessionId: Option<string>, now: string)
    returns (k: nat)
    requires FixesValid(fs, sessions)
    requires RecordFixOn(fs, sessions, h, errorText, rootCause, fix, resource, provider, validated, scope, sessionId, now).result.Ok?
    ensures
      var o := RecordFixOn(fs, sessions, h, errorText, rootCause, fix, resource, provider, validated, scope, sessionId, now);
      k < |o.rows| && o.result == Ok(k + 1) && o.rows[k].id == k + 1 && FindFix(o.rows, h) == Some(k)
  {
    var o := RecordFixOn(fs, sessions, h, errorText, rootCause, fix, resource, provider, validated, scope, sessionId, now);
    var found := FindFix(fs, h);
    if found.Some? {
      k := found.value;
      assert o == Outcome(Ok(fs[k].id), fs[k := HitAgain(fs[k], now)]);
      FindFixFirst(o.rows, h, k);
    } else {
      k := |fs|;
      var ins := InsertFix(fs, sessions, h, errorText, rootCause, fix, resource, provider, validated, scope, sessionId, now);
      assert o == ins;
      assert ins.rows == fs + [ins.rows[k]] && ins.rows[k].errorHash == h && ins.rows[k].id == k + 1;
      FindFixFirst(o.rows, h, k);
    }
  }

  /** `FindFix` finds the first row with the hash. */
  lemma {:induction false} FindFixFirst(fs: seq<Fix>, h: string, i: nat)
    requires i < |fs| && fs[i].errorHash == h
    requires forall j :: 0 <= j < i ==> fs[j].errorHash != h
    ensures FindFix(fs, h) == Some(i)
  {
    if i > 0 {
      FindFixFirst(fs[1..], h, i - 1);
    }
  }

  /**
   * A hash not yet stored is inserted as a new last row with the next id,
   * every supplied column, one hit and both timestamps now; a bad scope or
   * session is refused.
   */
  lemma NewFixInserted(
    fs: seq<Fix>, sessions: set<string>, h: string,
    errorText: string, rootCause: string, fix: string, resource: Option<string>, provider: Option<string>,
    validated: int, scope: Option<Scope>, sessionId: Option<string>, now: string)
    requires forall j :: 0 <= j < |fs| ==> fs[j].errorHash != h
    ensures
      var o := RecordFixOn(fs, sessions, h, errorText, rootCause, fix, resource, provider, validated, scope, sessionId, now);
      (o.result.Ok? <==> scope.Some? && SessionOk(sessionId, sessions)) &&
      (o.result.Ok? ==>
         o.result == Ok(|fs| + 1) &&
         o.rows == fs + [Fix(|fs| + 1, h, errorText, rootCause, fix, resource, provider, validated,
                             scope.value, now, now, 1, sessionId)] &&
         o.rows[..|fs|] == fs) &&
      (o.result.Err? ==> o.result == Err(IntegrityError) && o.rows == fs)
  {
    var o := RecordFixOn(fs, sessions, h, errorText, rootCause, fix, resource, provider, validated, scope, sessionId, now);
    assert FindFix(fs, h).None?;
    assert o == InsertFix(fs, sessions, h, errorText, rootCause, fix, resource, provider, validated, scope, sessionId, now);
    if o.result.Ok? {
      assert o.rows[..|fs|] == fs;
    }
  }

  /**
   * With a one-to-one digest, recording an error text after one of a
   * different normal form, whose hash is not stored yet, makes a row of its
   * own: when the scope and session are accepted it gets a new id, the earlier
   * rows are untouched, and the two hashes differ.
   */
  lemma DifferentTextsSeparateRows(
    fs: seq<Fix>, sessions: set<string>, digest: string -> string, a: string, b: string,
    rootCause: string, fix: string, resource: Option<string>, provider: Option<string>,
    validated: int, scope: Option<Scope>, sessionId: Option<string>, now1: string, now2: string)
    requires FixesValid(fs, sessions) && Injective(digest)
    requires Normalize(a) != Normalize(b)
    requires forall j :: 0 <= j < |fs| ==> fs[j].errorHash != ErrorHash(digest, b)
    requires RecordFixOn(fs, sessions, ErrorHash(digest, a), a, rootCause, fix, resource, provider, validated, scope, sessionId, now1).result.Ok?
    ensures ErrorHash(digest, a) != ErrorHash(digest, b)
    ensures
      var first := RecordFixOn(fs, sessions, ErrorHash(digest, a), a, rootCause, fix, resource, provider, validated, scope, sessionId, now1);
      var second := RecordFixOn(first.rows, sessions, ErrorHash(digest, b), b, rootCause, fix, resource, provider, validated, scope, sessionId, now2);
      (second.result.Ok? <==> scope.Some? && SessionOk(sessionId, sessions)) &&
      (second.result.Ok? ==>
         second.result.value == |first.rows| + 1 && second.result != first.result &&
         |second.rows| == |first.rows| + 1 && second.rows[..|first.rows|] == first.rows &&
         second.rows[|first.rows|].errorHash == ErrorHash(digest, b) && second.rows[|first.rows|].errorText == b)
  {
    var ha, hb := ErrorHash(digest, a), ErrorHash(digest, b);
    InjectiveHashes(digest, a, b);
    var first := RecordFixOn(fs, sessions, ha, a, rootCause, fix, resource, provider, validated, scope, sessionId, now1);
    var k := RecordedRow(fs, sessions, ha, a, rootCause, fix, resource, provider, validated, scope, sessionId, now1);
    OtherHashStaysAbsent(fs, sessions, ha, a, rootCause, fix, resource, provider, validated, scope, sessionId, now1, hb);
    NewFixInserted(first.rows, sessions, hb, b, rootCause, fix, resource, provider, validated, scope, sessionId, now2);
  }

  lemma InjectiveHashes(digest: string -> string, a: string, b: string)
    requires Injective(digest) && Normalize(a) != Normalize(b)
    ensures ErrorHash(digest, a) != ErrorHash(digest, b)
  {
    assert digest(Normalize(a)) != digest(Normalize(b));
  }

  /** `record_fix` stores no hash but its own, so a hash absent before stays absent. */
  lemma OtherHashStaysAbsent(
    fs: seq<Fix>, sessions: set<string>, h: string,
    errorText: string, rootCause: string, fix: string, resource: Option<string>, provider: Option<string>,
    validated: int, scope: Option<Scope>, sessionId: Option<string>, now: string, x: string)
    requires x != h && forall j :: 0 <= j < |fs| ==> fs[j].errorHash != x
    ensures forall j :: 0 <= j < |RecordFixOn(fs, sessions, h, errorText, rootCause, fix, resource, provider, validated, scope, sessionId, now).rows| ==>
              RecordFixOn(fs, sessions, h, errorText, rootCause, fix, resource, provider, validated, scope, sessionId, now).rows[j].errorHash != x
  {
  }

  /** A digest that sends different texts to different hashes (SHA-256 is assumed to be one). */
  ghost predicate Injective(digest: string -> string) {
    forall a, b {:trigger digest(a), digest(b)} :: digest(a) == digest(b) ==> a == b
  }

  // ================================================================ record_convention

  /** The row with the given (category, pattern). */
  function FindConvention(cs: seq<Convention>, category: string, pattern: string): (r: Option<nat>)
    ensures r.Some? ==> r.value < |cs| && cs[r.value].category == category && cs[r.value].pattern == pattern
    ensures r.None? ==> forall j :: 0 <= j < |cs| ==> (cs[j].category, cs[j].pattern) != (category, pattern)
  {
    if cs == [] then None
    else if cs[0].category == category && cs[0].pattern == pattern then Some(0)
    else
      var r := FindConvention(cs[1..], category, pattern);
      if r.Some? then Some(r.value + 1) else None
  }

  /** The distinct-session rule: a non-empty session different from the stored one counts once more. */
  function SessionBump(stored: Option<string>, supplied: Option<string>): nat {
    if Given(supplied) && supplied != stored then 1 else 0
  }

  /** A repeated `record_convention`: confidence + 0.2 capped at 1.0, and the supplied session (even none) stored. */
  function Corrected(c: Convention, sessionId: Option<string>, now: string): Convention {
    c.(confidence := Min(c.confidence + CorrectionDelta, ConfidenceCap),
       distinctSessions := c.distinctSessions + SessionBump(c.sessionId, sessionId),
       sessionId := sessionId,
       updatedAt := now)
  }

  /** What `record_convention` returns and leaves in the conventions table. */
  function RecordConventionOn(
    cs: seq<Convention>, sessions: set<string>,
    category: string, pattern: string, example: Option<string>, source: string, scope: Option<Scope>,
    sessionId: Option<string>, now: string): Outcome<nat, Convention>
  {
    match FindConvention(cs, category, pattern)
    case Some(i) =>
      if !SessionOk(sessionId, sessions) then Outcome(Err(IntegrityError), cs)
      else Outcome(Ok(cs[i].id), cs[i := Corrected(cs[i], sessionId, now)])
    case None =>
      if scope.None? || !SessionOk(sessionId, sessions) then Outcome(Err(IntegrityError), cs)
      else
        var id := |cs| + 1;
        Outcome(Ok(id), cs + [Convention(id, category, pattern, example, source, scope.value,
                                         now, now, ConfidenceBase, sessionId, 1)])
  }

  lemma RecordConventionKeepsValid(
    cs: seq<Convention>, sessions: set<string>,
    category: string, pattern: string, example: Option<string>, source: string, scope: Option<Scope>,
    sessionId: Option<string>, now: string)
    requires ConventionsValid(cs, sessions)
    ensures ConventionsValid(RecordConventionOn(cs, sessions, category, pattern, example, source, scope, sessionId, now).rows, sessions)
  {
  }

  /**
   * Recording an existing (category, pattern) raises its confidence by 0.2
   * up to 1.0, counts the session only when it is non-empty and new, stores
   * the supplied session even when it is none, refreshes `updated_at`, and
   * changes nothing else; a new one is appended with the next id at 0.5 with
   * one session. An unknown session (the foreign key) is refused, and so is
   * a bad scope (the CHECK constraint) on an insert; a refusal changes nothing.
   */
  lemma RecordConventionEffect(
    cs: seq<Convention>, sessions: set<string>,
    category: string, pattern: string, example: Option<string>, source: string, scope: Option<Scope>,
    sessionId: Option<string>, now: string)
    requires ConventionsValid(cs, sessions)
    ensures
      var o := RecordConventionOn(cs, sessions, category, pattern, example, source, scope, sessionId, now);
      var found := FindConvention(cs, category, pattern);
      (o.result.Ok? <==> SessionOk(sessionId, sessions) && (found.Some? || scope.Some?)) &&
      (o.result.Err? ==> o.result == Err(IntegrityError) && o.rows == cs) &&
      (o.result.Ok? && found.Some? ==>
        var i := found.value;
        var bumped := Given(sessionId) && sessionId != cs[i].sessionId;
        o.result == Ok(i + 1) && |o.rows| == |cs| &&
        o.rows[i] == cs[i].(confidence := Min(cs[i].confidence + CorrectionDelta, ConfidenceCap),
                            distinctSessions := cs[i].distinctSessions + (if bumped then 1 else 0),
                            sessionId := sessionId, updatedAt := now) &&
        o.rows[i].confidence <= ConfidenceCap &&
        (o.rows[i].distinctSessions == cs[i].distinctSessions + 1 <==> bumped) &&
        (o.rows[i].distinctSessions == cs[i].distinctSessions <==> !bumped) &&
        forall j :: 0 <= j < |cs| && j != i ==> o.rows[j] == cs[j]) &&
      (o.result.Ok? && found.None? ==>
        o.result == Ok(|cs| + 1) &&
        o.rows == cs + [Convention(|cs| + 1, category, pattern, example, source, scope.value,
                                   now, now, ConfidenceBase, sessionId, 1)])
  {
  }

  // ================================================================ record_quirk

  /** What `record_quirk` returns and leaves in the quirks table: always a new row. */
  function RecordQuirkOn(
    qs: seq<Quirk>, sessions: set<string>,
    service: string, description: string, region: Option<string>, workaround: Option<string>, scope: Option<Scope>,
    sessionId: Option<string>, now: string): Outcome<nat, Quirk>
  {
    if scope.None? || !SessionOk(sessionId, sessions) then Outcome(Err(IntegrityError), qs)
    else
      var id := |qs| + 1;
      Outcome(Ok(id), qs + [Quirk(id, service, description, region, workaround, scope.value, now, now, sessionId)])
  }

  /**
   * Every accepted quirk is a new last row with the next id, which is
   * returned, holding every supplied column, even one identical to an
   * existing quirk; a refused one changes nothing.
   */
  lemma RecordQuirkAlwaysInserts(
    qs: seq<Quirk>, sessions: set<string>,
    service: string, description: string, region: Option<string>, workaround: Option<string>, scope: Option<Scope>,
    sessionId: Option<string>, now: string)
    requires QuirksValid(qs, sessions)
    ensures
      var o := RecordQuirkOn(qs, sessions, service, description, region, workaround, scope, sessionId, now);
      QuirksValid(o.rows, sessions) &&
      (o.result.Ok? <==> scope.Some? && SessionOk(sessionId, sessions)) &&
      (o.result.Ok? ==>
         o.result == Ok(|qs| + 1) &&
         o.rows == qs + [Quirk(|qs| + 1, service, description, region, workaround, scope.value, now, now, sessionId)] &&
         o.rows[..|qs|] == qs) &&
      (o.result.Err? ==> o.result == Err(IntegrityError) && o.rows == qs)
  {
    var o := RecordQuirkOn(qs, sessions, service, description, region, workaround, scope, sessionId, now);
    if o.result.Ok? {
      assert o.rows[..|qs|] == qs;
    }
  }

  // ================================================================ confidence model

  /**
   * `effective_confidence`: one session caps the raw confidence at 0.7;
   * more sessions add 0.05 each beyond the first, at most 0.2, and the sum
   * is capped at 1.0.
   */
  function EffectiveConfidence(raw: real, distinctSessions: int): (r: real)
    ensures r <= ConfidenceCap
    ensures distinctSessions <= 1 ==> r <= SingleSessionCeiling && r <= raw
    ensures distinctSessions > 1 ==> r <= raw + SessionBonusCap
    ensures 0.0 <= raw ==> 0.0 <= r
  {
    if distinctSessions <= 1 then Min(raw, SingleSessionCeiling)
    else
      var bonus := Min((distinctSessions - 1) as real * SessionBonusPer, SessionBonusCap);
      Min(raw + bonus, ConfidenceCap)
  }

  /** More raw confidence, or more sessions, never lowers the effective confidence. */
  lemma EffectiveConfidenceMonotone(raw1: real, raw2: real, d1: int, d2: int)
    requires raw1 <= raw2 && d1 <= d2
    ensures EffectiveConfidence(raw1, d1) <= EffectiveConfidence(raw2, d2)
  {
  }

  /** The values the confidence tests pin down. */
  lemma EffectiveConfidenceExamples()
    ensures EffectiveConfidence(0.9, 1) == 0.7
    ensures EffectiveConfidence(0.7, 3) == 0.8
    ensures EffectiveConfidence(0.7, 5) == 0.9
    ensures EffectiveConfidence(0.95, 10) == 1.0
    ensures EffectiveConfidence(0.8, 4) == 0.95
  {
  }

  /** The convention the reinforcement targets: `SELECT ... WHERE id = ?`. */
  function FindConventionById(cs: seq<Convention>, id: int): (r: Option<nat>)
    ensures r.Some? ==> r.value < |cs| && cs[r.value].id == id
    ensures r.None? ==> forall j :: 0 <= j < |cs| ==> cs[j].id != id
  {
    if cs == [] then None
    else if cs[0].id == id then Some(0)
    else
      var r := FindConventionById(cs[1..], id);
      if r.Some? then Some(r.value + 1) else None
  }

  /** `reinforce_convention` on a row: confidence + 0.1 capped at 1.0; a new non-empty session is counted and stored. */
  function Reinforced(c: Convention, sessionId: Option<string>, now: string): Convention {
    var bump := SessionBump(c.sessionId, sessionId);
    c.(confidence := Min(c.confidence + ReinforceDelta, ConfidenceCap),
       distinctSessions := c.distinctSessions + bump,
       sessionId := if bump == 1 then sessionId else c.sessionId,
       updatedAt := now)
  }

  /** What `reinforce_convention` returns and leaves in the conventions table. */
  function ReinforceOn(cs: seq<Convention>, sessions: set<string>, id: int, sessionId: Option<string>, now: string)
    : Outcome<real, Convention>
  {
    match FindConventionById(cs, id)
    case None => Outcome(Err(NotFound(id)), cs)
    case Some(i) =>
      var c := Reinforced(cs[i], sessionId, now);
      if !SessionOk(c.sessionId, sessions) then Outcome(Err(IntegrityError), cs)
      else Outcome(Ok(c.confidence), cs[i := c])
  }

  lemma ReinforceKeepsValid(cs: seq<Convention>, sessions: set<string>, id: int, sessionId: Option<string>, now: string)
    requires ConventionsValid(cs, sessions)
    ensures ConventionsValid(ReinforceOn(cs, sessions, id, sessionId, now).rows, sessions)
  {
  }

  /**
   * A missing id fails and changes nothing. Otherwise the row with the id
   * gets confidence + 0.1 capped at 1.0, which is returned; the session
   * count grows only for a new non-empty session, which is then stored;
   * `updated_at` becomes now; every other column and every other row stays.
   * A new session that does not exist breaks the foreign key and changes
   * nothing.
   */
  lemma ReinforceEffect(cs: seq<Convention>, sessions: set<string>, id: int, sessionId: Option<string>, now: string)
    requires ConventionsValid(cs, sessions)
    ensures
      var o := ReinforceOn(cs, sessions, id, sessionId, now);
      (!(1 <= id <= |cs|) ==> o.result == Err(NotFound(id)) && o.rows == cs) &&
      (1 <= id <= |cs| ==>
        var old_ := cs[id - 1];
        var bumped := Given(sessionId) && sessionId != old_.sessionId;
        (o.result.Ok? <==> !bumped || SessionOk(sessionId, sessions)) &&
        (o.result.Err? ==> o.result == Err(IntegrityError) && o.rows == cs) &&
        (o.result.Ok? ==>
          var new_ := o.rows[id - 1];
          |o.rows| == |cs| &&
          new_ == old_.(confidence := Min(old_.confidence + 0.1, 1.0),
                        distinctSessions := old_.distinctSessions + (if bumped then 1 else 0),
                        sessionId := if bumped then sessionId else old_.sessionId,
                        updatedAt := now) &&
          o.result == Ok(new_.confidence) &&
          new_.confidence <= 1.0 &&
          (new_.distinctSessions == old_.distinctSessions + 1 <==> bumped) &&
          (new_.distinctSessions == old_.distinctSessions <==> !bumped) &&
          forall j :: 0 <= j < |cs| && j != id - 1 ==> o.rows[j] == cs[j]))
  {
    if 1 <= id <= |cs| {
      assert cs[id - 1].id == id;
      FindConventionByIdFirst(cs, id);
    }
  }

  lemma {:induction false} FindConventionByIdFirst(cs: seq<Convention>, id: int)
    requires 1 <= id <= |cs|
    requires forall j :: 0 <= j < |cs| ==> cs[j].id == j + 1
    ensures FindConventionById(cs, id) == Some(id - 1)
  {
    if id > 1 {
      FindConventionByIdFirst2(cs[1..], id, 1);
    }
  }

  lemma {:induction false} FindConventionByIdFirst2(cs: seq<Convention>, id: int, offset: nat)
    requires offset < id <= |cs| + offset
    requires forall j :: 0 <= j < |cs| ==> cs[j].id == j + 1 + offset
    ensures FindConventionById(cs, id) == Some(id - 1 - offset)
    decreases |cs|
  {
    if cs[0].id != id {
      FindConventionByIdFirst2(cs[1..], id, offset + 1);
    }
  }

  /** `contradict_convention`: any row with the id goes back to 0.3; nothing is checked and 0.3 is returned. */
  function ContradictOn(cs: seq<Convention>, id: int, now: string): Outcome<real, Convention> {
    match FindConventionById(cs, id)
    case None => Outcome(Ok(ContradictionReset), cs)
    case Some(i) => Outcome(Ok(ContradictionReset), cs[i := cs[i].(confidence := ContradictionReset, updatedAt := now)])
  }

  /**
   * A contradiction returns 0.3; the row with the id, if any, gets
   * confidence 0.3 and `updated_at` now and keeps every other column,
   * including the session count and the session; other rows and the
   * validity of the table stay.
   */
  lemma ContradictEffect(cs: seq<Convention>, sessions: set<string>, id: int, now: string)
    requires ConventionsValid(cs, sessions)
    ensures
      var o := ContradictOn(cs, id, now);
      o.result == Ok(0.3) && ConventionsValid(o.rows, sessions) && |o.rows| == |cs| &&
      o.rows == (if 1 <= id <= |cs| then cs[id - 1 := cs[id - 1].(confidence := 0.3, updatedAt := now)] else cs) &&
      forall j :: 0 <= j < |cs| ==>
        o.rows[j].distinctSessions == cs[j].distinctSessions && o.rows[j].sessionId == cs[j].sessionId &&
        o.rows[j].confidence == (if cs[j].id == id then 0.3 else cs[j].confidence)
  {
    if 1 <= id <= |cs| {
      FindConventionByIdFirst(cs, id);
    }
    match FindConventionById(cs, id)
    case None =>
    case Some(i) =>
      assert forall j :: 0 <= j < |cs| && j != i ==> cs[j].id != id;
  }

  // ================================================================ override resolver

  /** Why a memory overrides the canon; `Text` gives the source's reason string. */
  datatype Reason = Scoped(scope: string) | ValidatedFix | ConfidenceAtLeast(effective: real)

  /** The reason string; `fmt` renders a confidence with two decimals (`f"{eff:.2f}"`). */
  function ReasonText(r: Reason, fmt: real -> string): string {
    match r
    case Scoped(s) => s + "-scoped"
    case ValidatedFix => "validated fix"
    case ConfidenceAtLeast(e) => "confidence " + fmt(e) + " >= 0.8"
  }

  /**
   * `_should_override` on a fix with the given `scope` (default
   * "personal") and `validated` value: team and org fixes override, a
   * personal fix overrides when validated is 1, anything else does not.
   */
  function ShouldOverride(scope: string, validated: Option<int>): (r: (bool, Option<Reason>))
    ensures r.0 <==> r.1.Some?
    ensures r.0 <==> scope == "team" || scope == "org" || (scope == "personal" && validated == Some(1))
    ensures scope == "team" || scope == "org" ==> r.1 == Some(Scoped(scope))
    ensures r.0 && scope == "personal" ==> r.1 == Some(ValidatedFix)
  {
    if scope == "team" || scope == "org" then (true, Some(Scoped(scope)))
    else if scope == "personal" then
      if validated == Some(1) then (true, Some(ValidatedFix)) else (false, None)
    else (false, None)
  }

  /**
   * `_should_override_convention` with `confidence` defaulting to 0.0 and
   * `distinct_sessions` to 1: team and org override; a personal convention
   * overrides when its effective confidence is at least 0.8 less the
   * tolerance.
   */
  function ShouldOverrideConvention(scope: string, confidence: Option<real>, distinctSessions: Option<int>)
    : (r: (bool, Option<Reason>))
    ensures r.0 <==> r.1.Some?
    ensures r.0 <==>
              scope == "team" || scope == "org" ||
              (scope == "personal" &&
               EffectiveConfidence(confidence.GetOr(0.0), distinctSessions.GetOr(1)) >= OverrideThreshold - OverrideTolerance)
    ensures r.0 && scope == "personal" ==>
              r.1 == Some(ConfidenceAtLeast(EffectiveConfidence(confidence.GetOr(0.0), distinctSessions.GetOr(1))))
  {
    if scope == "team" || scope == "org" then (true, Some(Scoped(scope)))
    else if scope == "personal" then
      var eff := EffectiveConfidence(confidence.GetOr(0.0), distinctSessions.GetOr(1));
      if eff >= OverrideThreshold - OverrideTolerance then (true, Some(ConfidenceAtLeast(eff))) else (false, None)
    else (false, None)
  }

  /** The boundary cases: 0.7 raw over three sessions overrides at exactly 0.8; 0.69 over three and 0.7 over one do not. */
  lemma ConventionOverrideBoundary()
    ensures ShouldOverrideConvention("personal", Some(0.7), Some(3)) == (true, Some(ConfidenceAtLeast(0.8)))
    ensures ShouldOverrideConvention("personal", Some(0.69), Some(3)) == (false, None)
    ensures ShouldOverrideConvention("personal", Some(0.7), Some(1)) == (false, None)
    ensures ShouldOverrideConvention("team", Some(0.3), None) == (true, Some(Scoped("team")))
    ensures EffectiveConfidence(0.6999999995, 3) < OverrideThreshold &&
            ShouldOverrideConvention("personal", Some(0.6999999995), Some(3)).0
  {
    assert EffectiveConfidence(0.7, 3) == 0.8;
    assert EffectiveConfidence(0.69, 3) == 0.79;
  }

  /**
   * Every confidence the write operations produce is a multiple of 0.1 (0.5,
   * plus 0.1 or 0.2, capped at 1.0, or reset to 0.3). For such a confidence
   * the effective confidence is a multiple of 0.05, so the tolerance changes
   * no outcome: the test agrees with an exact `>= 0.8`.
   */
  lemma {:induction false} ToleranceOnGrid(k: int, d: int)
    ensures ShouldOverrideConvention("personal", Some(k as real * 0.1), Some(d)).0 <==>
              EffectiveConfidence(k as real * 0.1, d) >= OverrideThreshold
  {
    var raw := k as real * 0.1;
    var m: int;
    if d <= 1 {
      m := if 2 * k <= 14 then 2 * k else 14;
    } else {
      var bonus := if d - 1 <= 4 then d - 1 else 4;
      m := if 2 * k + bonus <= 20 then 2 * k + bonus else 20;
    }
    assert EffectiveConfidence(raw, d) == m as real * 0.05;
    assert m as real * 0.05 >= OverrideThreshold - OverrideTolerance <==> m >= 16;
  }

  /** A convention from one session never overrides while personal, however often it was repeated. */
  lemma SingleSessionNeverOverrides(confidence: real)
    ensures !ShouldOverrideConvention("personal", Some(confidence), Some(1)).0
  {
  }

  /**
   * A convention recorded in session A and reinforced in sessions B and C
   * reaches 0.7 over three sessions; its effective confidence is 0.8,
   * enough to override.
   */
  lemma ThreeSessionLifecycle(sessions: set<string>, now: string)
    requires "A" in sessions && "B" in sessions && "C" in sessions
    ensures
      var o1 := RecordConventionOn([], sessions, "naming", "s3-buckets-use-kebab-case", None, "correction", Some(Personal), Some("A"), now);
      var o2 := ReinforceOn(o1.rows, sessions, 1, Some("B"), now);
      var o3 := ReinforceOn(o2.rows, sessions, 1, Some("C"), now);
      o3.result == Ok(0.7) && |o3.rows| == 1 &&
      o3.rows[0].confidence == 0.7 && o3.rows[0].distinctSessions == 3 &&
      EffectiveConfidence(o3.rows[0].confidence, o3.rows[0].distinctSessions) == 0.8 &&
      ShouldOverrideConvention("personal", Some(o3.rows[0].confidence), Some(o3.rows[0].distinctSessions)).0
  {
    var o1 := RecordConventionOn([], sessions, "naming", "s3-buckets-use-kebab-case", None, "correction", Some(Personal), Some("A"), now);
    assert o1.rows == [Convention(1, "naming", "s3-buckets-use-kebab-case", None, "correction", Personal, now, now, 0.5, Some("A"), 1)];
    var o2 := ReinforceOn(o1.rows, sessions, 1, Some("B"), now);
    assert o2.rows[0].confidence == 0.6 && o2.rows[0].distinctSessions == 2 && o2.rows[0].sessionId == Some("B");
    var o3 := ReinforceOn(o2.rows, sessions, 1, Some("C"), now);
    assert o3.rows[0].confidence == 0.7 && o3.rows[0].distinctSessions == 3;
    assert EffectiveConfidence(0.7, 3) == 0.8;
  }

  // ================================================================ query_with_priority

  /** The data behind one merged entry. */
  datatype Item = CanonItem(signature: Entry) | MemoryItem(fix: Fix)

  /** One element of `merged`: its source, whether it overrides the canon and why, and the entry. */
  datatype MergedEntry = MergedEntry(source: string, overridesCanon: bool, overrideReason: Option<Reason>, item: Item)

  /** `_should_override` on a stored fix, whose scope is always one of the three. */
  function FixOverride(f: Fix): (bool, Option<Reason>) {
    match f.scope
    case Personal => if f.validated == 1 then (true, Some(ValidatedFix)) else (false, None)
    case Team => (true, Some(Scoped(ScopeName(Team))))
    case Org => (true, Some(Scoped(ScopeName(Org))))
  }

  /** `FixOverride` is `_should_override` applied to the row's columns. */
  lemma FixOverrideAgrees(f: Fix)
    ensures FixOverride(f) == ShouldOverride(ScopeName(f.scope), Some(f.validated))
  {
  }

  function MemoryEntry(f: Fix): MergedEntry {
    MergedEntry("memory", FixOverride(f).0, FixOverride(f).1, MemoryItem(f))
  }

  function CanonEntry(e: Entry): MergedEntry {
    MergedEntry("canon", false, None, CanonItem(e))
  }

  function Overriding(): Fix -> bool { f => FixOverride(f).0 }
  function NotOverriding(): Fix -> bool { f => !FixOverride(f).0 }

  /** `overriding + canon_entries + non_overriding` */
  function Merged(canon: seq<Entry>, fixes: seq<Fix>): seq<MergedEntry> {
    Map(Filter(fixes, Overriding()), MemoryEntry) + Map(canon, CanonEntry) + Map(Filter(fixes, NotOverriding()), MemoryEntry)
  }

  /**
   * The merge step of `query_with_priority`: each memory fix goes to the
   * overriding or the non-overriding list, and the canon entries go between
   * the two.
   */
  method MergeWithPriority(canonResults: seq<Entry>, memoryFixes: seq<Fix>) returns (merged: seq<MergedEntry>)
    ensures merged == Merged(canonResults, memoryFixes)
  {
    var overriding: seq<MergedEntry> := [];
    var nonOverriding: seq<MergedEntry> := [];
    var n := 0;
    while n < |memoryFixes|
      invariant 0 <= n <= |memoryFixes|
      invariant overriding == Map(Filter(memoryFixes[..n], Overriding()), MemoryEntry)
      invariant nonOverriding == Map(Filter(memoryFixes[..n], NotOverriding()), MemoryEntry)
    {
      var fix := memoryFixes[n];
      var (override, reason) := ShouldOverride(ScopeName(fix.scope), Some(fix.validated));
      FixOverrideAgrees(fix);
      var entry := MergedEntry("memory", override, reason, MemoryItem(fix));
      assert entry == MemoryEntry(fix);
      SortIntoBucket(memoryFixes, n);
      if override {
        overriding := overriding + [entry];
      } else {
        nonOverriding := nonOverriding + [entry];
      }
      n := n + 1;
    }
    assert memoryFixes[..n] == memoryFixes;
    var canonEntries := Map(canonResults, CanonEntry);
    merged := overriding + canonEntries + nonOverriding;
  }

  lemma SortIntoBucket(fixes: seq<Fix>, n: int)
    requires 0 <= n < |fixes|
    ensures Map(Filter(fixes[..n + 1], Overriding()), MemoryEntry) ==
              Map(Filter(fixes[..n], Overriding()), MemoryEntry) + (if FixOverride(fixes[n]).0 then [MemoryEntry(fixes[n])] else [])
    ensures Map(Filter(fixes[..n + 1], NotOverriding()), MemoryEntry) ==
              Map(Filter(fixes[..n], NotOverriding()), MemoryEntry) + (if FixOverride(fixes[n]).0 then [] else [MemoryEntry(fixes[n])])
  {
    var init, f := fixes[..n], fixes[n];
    assert fixes[..n + 1] == init + [f];
    FilterSnoc(init, f, Overriding());
    FilterSnoc(init, f, NotOverriding());
    MapSingle(f, MemoryEntry);
    if FixOverride(f).0 {
      assert Filter(init + [f], Overriding()) == Filter(init, Overriding()) + [f];
      MapConcat(Filter(init, Overriding()), [f], MemoryEntry);
      assert Filter(init + [f], NotOverriding()) == Filter(init, NotOverriding());
    } else {
      assert Filter(init + [f], NotOverriding()) == Filter(init, NotOverriding()) + [f];
      MapConcat(Filter(init, NotOverriding()), [f], MemoryEntry);
      assert Filter(init + [f], Overriding()) == Filter(init, Overriding());
    }
  }

  /**
   * The merged list holds the overriding memory fixes, then every canon
   * entry marked as not overriding, then the other memory fixes; each
   * memory fix appears exactly once, with the flag and reason of
   * `_should_override`.
   */
  lemma MergedBuckets(canon: seq<Entry>, fixes: seq<Fix>)
    ensures |Merged(canon, fixes)| == |fixes| + |canon|
    ensures var m, over := Merged(canon, fixes), Filter(fixes, Overriding());
      forall i :: 0 <= i < |over| ==> m[i] == MemoryEntry(over[i]) && m[i].overridesCanon
    ensures var m, k1 := Merged(canon, fixes), |Filter(fixes, Overriding())|;
      forall i :: k1 <= i < k1 + |canon| ==> m[i] == CanonEntry(canon[i - k1]) && !m[i].overridesCanon
    ensures var m, k2, under := Merged(canon, fixes), |Filter(fixes, Overriding())| + |canon|, Filter(fixes, NotOverriding());
      forall i :: k2 <= i < |m| ==> m[i] == MemoryEntry(under[i - k2]) && !m[i].overridesCanon
  {
    PartitionSizes(fixes);
    OverridingBucket(canon, fixes);
    CanonBucket(canon, fixes);
    NonOverridingBucket(canon, fixes);
  }

  lemma OverridingBucket(canon: seq<Entry>, fixes: seq<Fix>)
    ensures var m, over := Merged(canon, fixes), Filter(fixes, Overriding());
      forall i :: 0 <= i < |over| ==> m[i] == MemoryEntry(over[i]) && m[i].overridesCanon
  {
    var over, under := Filter(fixes, Overriding()), Filter(fixes, NotOverriding());
    Concat3Index(Map(over, MemoryEntry), Map(canon, CanonEntry), Map(under, MemoryEntry));
    MapEach(over, MemoryEntry);
  }

  lemma CanonBucket(canon: seq<Entry>, fixes: seq<Fix>)
    ensures var m, k1 := Merged(canon, fixes), |Filter(fixes, Overriding())|;
      forall i :: k1 <= i < k1 + |canon| ==> m[i] == CanonEntry(canon[i - k1]) && !m[i].overridesCanon
  {
    var over, under := Filter(fixes, Overriding()), Filter(fixes, NotOverriding());
    Concat3Index(Map(over, MemoryEntry), Map(canon, CanonEntry), Map(under, MemoryEntry));
    MapEach(canon, CanonEntry);
  }

  lemma NonOverridingBucket(canon: seq<Entry>, fixes: seq<Fix>)
    ensures var m, k2, under := Merged(canon, fixes), |Filter(fixes, Overriding())| + |canon|, Filter(fixes, NotOverriding());
      forall i :: k2 <= i < |m| ==> m[i] == MemoryEntry(under[i - k2]) && !m[i].overridesCanon
  {
    var over, under := Filter(fixes, Overriding()), Filter(fixes, NotOverriding());
    LastBucketPositions(canon, fixes);
    MapEach(under, MemoryEntry);
    NonOverridingFlags(fixes);
  }

  lemma LastBucketPositions(canon: seq<Entry>, fixes: seq<Fix>)
    ensures var m, k2, c := Merged(canon, fixes), |Filter(fixes, Overriding())| + |canon|, Map(Filter(fixes, NotOverriding()), MemoryEntry);
      |m| == k2 + |c| && forall i :: k2 <= i < |m| ==> m[i] == c[i - k2]
  {
    var a, b, c := Map(Filter(fixes, Overriding()), MemoryEntry), Map(canon, CanonEntry), Map(Filter(fixes, NotOverriding()), MemoryEntry);
    var k2 := |Filter(fixes, Overriding())| + |canon|;
    assert Merged(canon, fixes) == a + b + c;
    LastPart(a, b, c, k2);
  }

  lemma NonOverridingFlags(fixes: seq<Fix>)
    ensures forall j :: 0 <= j < |Filter(fixes, NotOverriding())| ==> !MemoryEntry(Filter(fixes, NotOverriding())[j]).overridesCanon
  {
  }

  lemma PartitionSizes(fixes: seq<Fix>)
    ensures |Filter(fixes, Overriding())| + |Filter(fixes, NotOverriding())| == |fixes|
  {
    FilterPartition(fixes, Overriding(), NotOverriding());
    assert |multiset(Filter(fixes, Overriding()))| + |multiset(Filter(fixes, NotOverriding()))| == |multiset(fixes)|;
  }

  /** Each memory fix is in the merged list as often as among the memory results. */
  lemma MergedKeepsEveryFix(canon: seq<Entry>, fixes: seq<Fix>)
    ensures multiset(Map(Filter(fixes, Overriding()), MemoryEntry)) + multiset(Map(Filter(fixes, NotOverriding()), MemoryEntry)) ==
              multiset(Map(fixes, MemoryEntry))
    ensures forall f :: multiset(Merged(canon, fixes))[MemoryEntry(f)] == multiset(fixes)[f]
  {
    MapFilterPartition(fixes, Overriding(), NotOverriding(), MemoryEntry);
    var a, b, c := Map(Filter(fixes, Overriding()), MemoryEntry), Map(canon, CanonEntry), Map(Filter(fixes, NotOverriding()), MemoryEntry);
    assert multiset(Merged(canon, fixes)) == multiset(a) + multiset(b) + multiset(c);
    forall f
      ensures multiset(Merged(canon, fixes))[MemoryEntry(f)] == multiset(fixes)[f]
    {
      MapMemoryCount(fixes, f);
      CanonHasNoMemory(canon, f);
    }
  }

  /** No canon entry of the merged list is a memory entry. */
  lemma CanonHasNoMemory(canon: seq<Entry>, f: Fix)
    ensures multiset(Map(canon, CanonEntry))[MemoryEntry(f)] == 0
  {
    if MemoryEntry(f) in Map(canon, CanonEntry) {
      MapEach(canon, CanonEntry);
    }
  }

  /** `MemoryEntry` is one-to-one, so counting entries counts fixes. */
  lemma {:induction false} MapMemoryCount(fixes: seq<Fix>, f: Fix)
    ensures multiset(Map(fixes, MemoryEntry))[MemoryEntry(f)] == multiset(fixes)[f]
    decreases |fixes|
  {
    if fixes != [] {
      var init, g := fixes[..|fixes| - 1], fixes[|fixes| - 1];
      MapMemoryCount(init, f);
      assert fixes == init + [g];
      assert MemoryEntry(g) == MemoryEntry(f) <==> g == f;
    }
  }

  /** When the canon could not be loaded, the merged list is the overriding then the other memory fixes. */
  lemma NoCanonMergesMemoryOnly(fixes: seq<Fix>)
    ensures Merged([], fixes) == Map(Filter(fixes, Overriding()), MemoryEntry) + Map(Filter(fixes, NotOverriding()), MemoryEntry)
  {
    assert Map([], CanonEntry) == [];
    assert Map(Filter(fixes, Overriding()), MemoryEntry) + [] == Map(Filter(fixes, Overriding()), MemoryEntry);
  }

  /** The result of `query_with_priority`. */
  datatype PriorityResult = PriorityResult(canonResults: seq<Entry>, memoryResults: seq<Fix>, merged: seq<MergedEntry>)

  /** The canon part of the query: the matching signatures, or nothing when the file is missing or malformed. */
  function CanonResults(errorText: string, sigs: CanonFile, re: RegexEngine): seq<Entry> {
    if sigs.Some? && StrFieldsIn(sigs, "signatures", "error_pattern") then
      Filter(FileList(sigs, "signatures"), MatchesText(re, errorText))
    else []
  }

  // ================================================================ lookups

  /** The key `ORDER BY hit_count DESC` sorts fixes on. */
  function HitKey(f: Fix): real {
    f.hitCount as real
  }

  /** The key `ORDER BY confidence DESC` sorts conventions on. */
  function ConfidenceKey(c: Convention): real {
    c.confidence
  }

  /** The hash `lookup_fix` filters on: an explicit hash wins over the hash of the text; neither means no hash condition. */
  function HashCondition(digest: string -> string, errorText: Option<string>, errorHash: Option<string>): Option<string> {
    if Given(errorHash) then errorHash
    else if Given(errorText) then Some(ErrorHash(digest, errorText.value))
    else None
  }

  predicate FixSelected(f: Fix, hash: Option<string>, resource: Option<string>, scopeFilter: Option<string>) {
    (hash.Some? ==> f.errorHash == hash.value) &&
    (Given(resource) ==> f.resource == resource) &&
    (Given(scopeFilter) ==> ScopeName(f.scope) == scopeFilter.value)
  }

  function FixFilter(hash: Option<string>, resource: Option<string>, scopeFilter: Option<string>): Fix -> bool {
    f => FixSelected(f, hash, resource, scopeFilter)
  }

  /** `lookup_fix` on a fixes table; rows with equal hit counts keep table order. */
  function FixLookup(fs: seq<Fix>, digest: string -> string, errorText: Option<string>, errorHash: Option<string>,
                     resource: Option<string>, scopeFilter: Option<string>): (r: seq<Fix>)
    ensures SortedDesc(r, HitKey)
    ensures multiset(r) == multiset(Filter(fs, FixFilter(HashCondition(digest, errorText, errorHash), resource, scopeFilter)))
    ensures forall f :: f in r <==>
              f in fs && FixSelected(f, HashCondition(digest, errorText, errorHash), resource, scopeFilter)
  {
    var selected := Filter(fs, FixFilter(HashCondition(digest, errorText, errorHash), resource, scopeFilter));
    var r := SortDescBy(selected, HitKey);
    assert forall f :: f in r <==> f in multiset(r);
    assert forall f :: f in selected <==> f in multiset(selected);
    r
  }

  predicate ConventionSelected(c: Convention, category: Option<string>, scopeFilter: Option<string>, minConfidence: real) {
    (Given(category) ==> c.category == category.value) &&
    (Given(scopeFilter) ==> ScopeName(c.scope) == scopeFilter.value) &&
    (minConfidence > 0.0 ==> c.confidence >= minConfidence)
  }

  function ConventionFilter(category: Option<string>, scopeFilter: Option<string>, minConfidence: real): Convention -> bool {
    c => ConventionSelected(c, category, scopeFilter, minConfidence)
  }

  /** A convention as `lookup_conventions` reports it: the row and its effective confidence. */
  datatype ScoredConvention = ScoredConvention(row: Convention, effectiveConfidence: real)

  function Scored(c: Convention): ScoredConvention {
    ScoredConvention(c, EffectiveConfidence(c.confidence, c.distinctSessions))
  }

  /** The rows `lookup_conventions` selects, by descending raw confidence; ties keep table order. */
  function ConventionRows(cs: seq<Convention>, category: Option<string>, scopeFilter: Option<string>, minConfidence: real)
    : (r: seq<Convention>)
    ensures SortedDesc(r, ConfidenceKey)
    ensures multiset(r) == multiset(Filter(cs, ConventionFilter(category, scopeFilter, minConfidence)))
    ensures forall c :: c in r <==> c in cs && ConventionSelected(c, category, scopeFilter, minConfidence)
  {
    var selected := Filter(cs, ConventionFilter(category, scopeFilter, minConfidence));
    var r := SortDescBy(selected, ConfidenceKey);
    assert forall c :: c in r <==> c in multiset(r);
    assert forall c :: c in selected <==> c in multiset(selected);
    r
  }

  predicate QuirkSelected(q: Quirk, service: Option<string>, region: Option<string>, scopeFilter: Option<string>) {
    (Given(service) ==> q.service == service.value) &&
    (Given(region) ==> q.region == region) &&
    (Given(scopeFilter) ==> ScopeName(q.scope) == scopeFilter.value)
  }

  function QuirkFilter(service: Option<string>, region: Option<string>, scopeFilter: Option<string>): Quirk -> bool {
    q => QuirkSelected(q, service, region, scopeFilter)
  }

  // ================================================================ export_for_fork

  /** The scopes a fork copies: only org for the filter "org", team and org for any other filter. */
  function ForkScopes(scopeFilter: string): (r: set<Scope>)
    ensures Personal !in r && Org in r
    ensures Team in r <==> scopeFilter != "org"
  {
    if scopeFilter == "org" then {Org} else {Team, Org}
  }

  /** A fix as the fork inserts it: the next row id and no session. */
  function ForkedFix(f: Fix, id: nat): Fix {
    f.(id := id, sessionId := None)
  }

  /** A convention as the fork inserts it: the next row id, no session and one distinct session. */
  function ForkedConvention(c: Convention, id: nat): Convention {
    c.(id := id, sessionId := None, distinctSessions := 1)
  }

  function ForkedQuirk(q: Quirk, id: nat): Quirk {
    q.(id := id, sessionId := None)
  }

  /** The fixes table of the fork, built as the copy loop builds it. */
  function ForkFixes(fs: seq<Fix>, scopes: set<Scope>): (r: seq<Fix>)
    ensures forall i :: 0 <= i < |r| ==> exists j :: 0 <= j < |fs| && r[i] == ForkedFix(fs[j], i + 1)
    decreases |fs|
  {
    if fs == [] then []
    else
      var prev := ForkFixes(fs[..|fs| - 1], scopes);
      var f := fs[|fs| - 1];
      if f.scope in scopes then prev + [ForkedFix(f, |prev| + 1)] else prev
  }

  function ForkConventions(cs: seq<Convention>, scopes: set<Scope>): (r: seq<Convention>)
    ensures forall i :: 0 <= i < |r| ==> exists j :: 0 <= j < |cs| && r[i] == ForkedConvention(cs[j], i + 1)
    decreases |cs|
  {
    if cs == [] then []
    else
      var prev := ForkConventions(cs[..|cs| - 1], scopes);
      var c := cs[|cs| - 1];
      if c.scope in scopes then prev + [ForkedConvention(c, |prev| + 1)] else prev
  }

  function ForkQuirks(qs: seq<Quirk>, scopes: set<Scope>): (r: seq<Quirk>)
    ensures forall i :: 0 <= i < |r| ==> exists j :: 0 <= j < |qs| && r[i] == ForkedQuirk(qs[j], i + 1)
    decreases |qs|
  {
    if qs == [] then []
    else
      var prev := ForkQuirks(qs[..|qs| - 1], scopes);
      var q := qs[|qs| - 1];
      if q.scope in scopes then prev + [ForkedQuirk(q, |prev| + 1)] else prev
  }

  function FixInScopes(scopes: set<Scope>): Fix -> bool { (f: Fix) => f.scope in scopes }
  function ConventionInScopes(scopes: set<Scope>): Convention -> bool { (c: Convention) => c.scope in scopes }
  function QuirkInScopes(scopes: set<Scope>): Quirk -> bool { (q: Quirk) => q.scope in scopes }

  /**
   * The forked fixes are exactly the fixes of the chosen scopes, in table
   * order, renumbered from 1 and without a session.
   */
  lemma {:induction false} ForkFixesAreFiltered(fs: seq<Fix>, scopes: set<Scope>)
    ensures |ForkFixes(fs, scopes)| == |Filter(fs, FixInScopes(scopes))|
    ensures forall i :: 0 <= i < |ForkFixes(fs, scopes)| ==>
              ForkFixes(fs, scopes)[i] == ForkedFix(Filter(fs, FixInScopes(scopes))[i], i + 1)
    decreases |fs|
  {
    if fs != [] {
      var init, f := fs[..|fs| - 1], fs[|fs| - 1];
      ForkFixesAreFiltered(init, scopes);
      FilterLast(fs, FixInScopes(scopes));
      var prev, kept := ForkFixes(init, scopes), Filter(init, FixInScopes(scopes));
      if f.scope in scopes {
        assert FixInScopes(scopes)(f);
        var y := ForkedFix(f, |prev| + 1);
        assert ForkFixes(fs, scopes) == prev + [y];
        assert Filter(fs, FixInScopes(scopes)) == kept + [f];
        forall i | 0 <= i < |prev| + 1
          ensures (prev + [y])[i] == ForkedFix((kept + [f])[i], i + 1)
        {
          if i < |prev| {
            assert (prev + [y])[i] == prev[i];
            assert (kept + [f])[i] == kept[i];
          }
        }
      } else {
        assert !FixInScopes(scopes)(f);
      }
    }
  }

  /** The forked conventions are the conventions of the chosen scopes with their confidence, one session and no session id. */
  lemma {:induction false} ForkConventionsAreFiltered(cs: seq<Convention>, scopes: set<Scope>)
    ensures |ForkConventions(cs, scopes)| == |Filter(cs, ConventionInScopes(scopes))|
    ensures forall i :: 0 <= i < |ForkConventions(cs, scopes)| ==>
              ForkConventions(cs, scopes)[i] == ForkedConvention(Filter(cs, ConventionInScopes(scopes))[i], i + 1)
    decreases |cs|
  {
    if cs != [] {
      var init, c := cs[..|cs| - 1], cs[|cs| - 1];
      ForkConventionsAreFiltered(init, scopes);
      FilterLast(cs, ConventionInScopes(scopes));
      var prev, kept := ForkConventions(init, scopes), Filter(init, ConventionInScopes(scopes));
      if c.scope in scopes {
        assert ConventionInScopes(scopes)(c);
        var y := ForkedConvention(c, |prev| + 1);
        assert ForkConventions(cs, scopes) == prev + [y];
        assert Filter(cs, ConventionInScopes(scopes)) == kept + [c];
        forall i | 0 <= i < |prev| + 1
          ensures (prev + [y])[i] == ForkedConvention((kept + [c])[i], i + 1)
        {
          if i < |prev| {
            assert (prev + [y])[i] == prev[i];
            assert (kept + [c])[i] == kept[i];
          }
        }
      } else {
        assert !ConventionInScopes(scopes)(c);
      }
    }
  }

  lemma {:induction false} ForkQuirksAreFiltered(qs: seq<Quirk>, scopes: set<Scope>)
    ensures |ForkQuirks(qs, scopes)| == |Filter(qs, QuirkInScopes(scopes))|
    ensures forall i :: 0 <= i < |ForkQuirks(qs, scopes)| ==>
              ForkQuirks(qs, scopes)[i] == ForkedQuirk(Filter(qs, QuirkInScopes(scopes))[i], i + 1)
    decreases |qs|
  {
    if qs != [] {
      var init, q := qs[..|qs| - 1], qs[|qs| - 1];
      ForkQuirksAreFiltered(init, scopes);
      FilterLast(qs, QuirkInScopes(scopes));
      var prev, kept := ForkQuirks(init, scopes), Filter(init, QuirkInScopes(scopes));
      if q.scope in scopes {
        assert QuirkInScopes(scopes)(q);
        var y := ForkedQuirk(q, |prev| + 1);
        assert ForkQuirks(qs, scopes) == prev + [y];
        assert Filter(qs, QuirkInScopes(scopes)) == kept + [q];
        forall i | 0 <= i < |prev| + 1
          ensures (prev + [y])[i] == ForkedQuirk((kept + [q])[i], i + 1)
        {
          if i < |prev| {
            assert (prev + [y])[i] == prev[i];
            assert (kept + [q])[i] == kept[i];
          }
        }
      } else {
        assert !QuirkInScopes(scopes)(q);
      }
    }
  }

  /** A forked fix is never personal, is org-scoped for the filter "org", and has no session. */
  lemma ForkedFixesScoped(fs: seq<Fix>, scopeFilter: string)
    ensures var r := ForkFixes(fs, ForkScopes(scopeFilter));
      forall i :: 0 <= i < |r| ==>
        r[i].scope != Personal && (scopeFilter == "org" ==> r[i].scope == Org) && r[i].sessionId.None?
  {
    var scopes := ForkScopes(scopeFilter);
    ForkFixesAreFiltered(fs, scopes);
    var kept := Filter(fs, FixInScopes(scopes));
    assert forall i :: 0 <= i < |kept| ==> kept[i].scope in scopes;
  }

  /** A forked convention is never personal, keeps its confidence, and starts over with one session and no session id. */
  lemma ForkedConventionsScoped(cs: seq<Convention>, scopeFilter: string)
    ensures var r, kept := ForkConventions(cs, ForkScopes(scopeFilter)), Filter(cs, ConventionInScopes(ForkScopes(scopeFilter)));
      |r| == |kept| &&
      forall i :: 0 <= i < |r| ==>
        r[i].scope != Personal && (scopeFilter == "org" ==> r[i].scope == Org) && r[i].sessionId.None? &&
        r[i].distinctSessions == 1 && r[i].confidence == kept[i].confidence
  {
    var scopes := ForkScopes(scopeFilter);
    ForkConventionsAreFiltered(cs, scopes);
    var kept := Filter(cs, ConventionInScopes(scopes));
    assert forall i :: 0 <= i < |kept| ==> kept[i].scope in scopes;
  }

  /** A forked quirk is never personal, is org-scoped for the filter "org", and has no session. */
  lemma ForkedQuirksScoped(qs: seq<Quirk>, scopeFilter: string)
    ensures var r := ForkQuirks(qs, ForkScopes(scopeFilter));
      forall i :: 0 <= i < |r| ==>
        r[i].scope != Personal && (scopeFilter == "org" ==> r[i].scope == Org) && r[i].sessionId.None?
  {
    var scopes := ForkScopes(scopeFilter);
    ForkQuirksAreFiltered(qs, scopes);
    var kept := Filter(qs, QuirkInScopes(scopes));
    assert forall i :: 0 <= i < |kept| ==> kept[i].scope in scopes;
  }

  /** A fork of a valid store is a valid store with no sessions. */
  lemma ForkValid(fs: seq<Fix>, cs: seq<Convention>, qs: seq<Quirk>, sessions: set<string>, scopes: set<Scope>)
    requires FixesValid(fs, sessions) && ConventionsValid(cs, sessions) && QuirksValid(qs, sessions)
    ensures FixesValid(ForkFixes(fs, scopes), {})
    ensures ConventionsValid(ForkConventions(cs, scopes), {})
    ensures QuirksValid(ForkQuirks(qs, scopes), {})
  {
    ForkFixesDistinct(fs, scopes);
    ForkConventionsDistinct(cs, scopes);
  }

  lemma {:induction false} ForkFixesDistinct(fs: seq<Fix>, scopes: set<Scope>)
    requires forall i, j :: 0 <= i < j < |fs| ==> fs[i].errorHash != fs[j].errorHash
    ensures forall i, j :: 0 <= i < j < |ForkFixes(fs, scopes)| ==> ForkFixes(fs, scopes)[i].errorHash != ForkFixes(fs, scopes)[j].errorHash
    ensures forall i :: 0 <= i < |ForkFixes(fs, scopes)| ==> ForkFixes(fs, scopes)[i].id == i + 1
    decreases |fs|
  {
    if fs != [] {
      var init, f := fs[..|fs| - 1], fs[|fs| - 1];
      ForkFixesDistinct(init, scopes);
      var prev := ForkFixes(init, scopes);
      forall i | 0 <= i < |prev|
        ensures prev[i].errorHash != f.errorHash
      {
        var j :| 0 <= j < |init| && prev[i] == ForkedFix(init[j], i + 1);
        assert init[j] == fs[j];
      }
    }
  }

  lemma {:induction false} ForkConventionsDistinct(cs: seq<Convention>, scopes: set<Scope>)
    requires forall i, j :: 0 <= i < j < |cs| ==> (cs[i].category, cs[i].pattern) != (cs[j].category, cs[j].pattern)
    ensures forall i, j :: 0 <= i < j < |ForkConventions(cs, scopes)| ==>
              (ForkConventions(cs, scopes)[i].category, ForkConventions(cs, scopes)[i].pattern) !=
              (ForkConventions(cs, scopes)[j].category, ForkConventions(cs, scopes)[j].pattern)
    ensures forall i :: 0 <= i < |ForkConventions(cs, scopes)| ==> ForkConventions(cs, scopes)[i].id == i + 1
    decreases |cs|
  {
    if cs != [] {
      var init, c := cs[..|cs| - 1], cs[|cs| - 1];
      ForkConventionsDistinct(init, scopes);
      var prev := ForkConventions(init, scopes);
      forall i | 0 <= i < |prev|
        ensures (prev[i].category, prev[i].pattern) != (c.category, c.pattern)
      {
        var j :| 0 <= j < |init| && prev[i] == ForkedConvention(init[j], i + 1);
        assert init[j] == cs[j];
      }
    }
  }

  // ================================================================ the store

  /** A Memories database: the sessions table, the three knowledge tables, and the hash function. */
  class Store {
    const digest: string -> string
    var sessions: set<string>
    var fixes: seq<Fix>
    var conventions: seq<Convention>
    var quirks: seq<Quirk>

    ghost predicate Valid()
      reads this
    {
      FixesValid(fixes, sessions) && ConventionsValid(conventions, sessions) && QuirksValid(quirks, sessions)
    }

    /** A database with the given sessions and empty knowledge tables. */
    constructor(digest0: string -> string, sessions0: set<string>)
      ensures Valid()
      ensures digest == digest0 && sessions == sessions0
      ensures fixes == [] && conventions == [] && quirks == []
    {
      digest := digest0;
      sessions := sessions0;
      fixes := [];
      conventions := [];
      quirks := [];
    }

    /** `record_fix`: bump the row of the same normalised text, or insert one with one hit. */
    method RecordFix(errorText: string, rootCause: string, fix: string, resource: Option<string>, provider: Option<string>,
                     validated: int, scope: string, sessionId: Option<string>, now: string)
      returns (r: Result<nat, StoreError>)
      requires Valid()
      modifies this
      ensures Valid()
      ensures Outcome(r, fixes) ==
                RecordFixOn(old(fixes), sessions, ErrorHash(digest, errorText), errorText, rootCause, fix, resource, provider, validated,
                            ParseScope(scope), sessionId, now)
      ensures sessions == old(sessions) && conventions == old(conventions) && quirks == old(quirks)
    {
      var eh := ErrorHash(digest, errorText);
      r := RecordFixHashed(eh, errorText, rootCause, fix, resource, provider, validated, ParseScope(scope), sessionId, now);
    }

    /** `record_fix` once the hash is computed and the scope checked against the three names. */
    method RecordFixHashed(eh: string, errorText: string, rootCause: string, fix: string, resource: Option<string>,
                           provider: Option<string>, validated: int, sc: Option<Scope>, sessionId: Option<string>, now: string)
      returns (r: Result<nat, StoreError>)
      requires Valid()
      modifies this
      ensures Valid()
      ensures Outcome(r, fixes) ==
                RecordFixOn(old(fixes), sessions, eh, errorText, rootCause, fix, resource, provider, validated, sc, sessionId, now)
      ensures sessions == old(sessions) && conventions == old(conventions) && quirks == old(quirks)
    {
      ghost var spec := RecordFixOn(fixes, sessions, eh, errorText, rootCause, fix, resource, provider, validated, sc, sessionId, now);
      RecordFixKeepsValid(fixes, sessions, eh, errorText, rootCause, fix, resource, provider, validated, sc, sessionId, now);
      var existing := FindFix(fixes, eh);
      if existing.Some? {
        var i := existing.value;
        assert spec == Outcome(Ok(fixes[i].id), fixes[i := HitAgain(fixes[i], now)]);
        fixes := fixes[i := fixes[i].(hitCount := fixes[i].hitCount + 1, updatedAt := now)];
        r := Ok(fixes[i].id);
        return;
      }
      ghost var ins := InsertFix(fixes, sessions, eh, errorText, rootCause, fix, resource, provider, validated, sc, sessionId, now);
      assert spec == ins;
      if sc.None? || !SessionOk(sessionId, sessions) {
        r := Err(IntegrityError);
        assert Outcome(r, fixes) == ins;
        return;
      }
      var id := |fixes| + 1;
      fixes := fixes + [Fix(id, eh, errorText, rootCause, fix, resource, provider, validated, sc.value, now, now, 1, sessionId)];
      r := Ok(id);
      assert Outcome(r, fixes) == ins;
    }

    /** `record_convention`: correct the row with the same (category, pattern), or insert one at 0.5. */
    method RecordConvention(category: string, pattern: string, example: Option<string>, source: string, scope: string,
                            sessionId: Option<string>, now: string)
      returns (r: Result<nat, StoreError>)
      requires Valid()
      modifies this
      ensures Valid()
      ensures Outcome(r, conventions) ==
                RecordConventionOn(old(conventions), sessions, category, pattern, example, source, ParseScope(scope), sessionId, now)
      ensures sessions == old(sessions) && fixes == old(fixes) && quirks == old(quirks)
    {
      RecordConventionKeepsValid(conventions, sessions, category, pattern, example, source, ParseScope(scope), sessionId, now);
      var existing := FindConvention(conventions, category, pattern);
      if existing.Some? {
        var i := existing.value;
        var row := conventions[i];
        var newConfidence := Min(row.confidence + CorrectionDelta, ConfidenceCap);
        var newDistinct := row.distinctSessions;
        if Given(sessionId) && sessionId != row.sessionId {
          newDistinct := newDistinct + 1;
        }
        if !SessionOk(sessionId, sessions) {
          return Err(IntegrityError);
        }
        conventions := conventions[i := row.(confidence := newConfidence, distinctSessions := newDistinct,
                                             sessionId := sessionId, updatedAt := now)];
        return Ok(row.id);
      }
      var sc := ParseScope(scope);
      if sc.None? || !SessionOk(sessionId, sessions) {
        return Err(IntegrityError);
      }
      var id := |conventions| + 1;
      conventions := conventions + [Convention(id, category, pattern, example, source, sc.value, now, now,
                                               ConfidenceBase, sessionId, 1)];
      r := Ok(id);
    }

    /** `record_quirk`: always a new row. */
    method RecordQuirk(service: string, description: string, region: Option<string>, workaround: Option<string>,
                       scope: string, sessionId: Option<string>, now: string)
      returns (r: Result<nat, StoreError>)
      requires Valid()
      modifies this
      ensures Valid()
      ensures Outcome(r, quirks) ==
                RecordQuirkOn(old(quirks), sessions, service, description, region, workaround, ParseScope(scope), sessionId, now)
      ensures sessions == old(sessions) && fixes == old(fixes) && conventions == old(conventions)
    {
      RecordQuirkAlwaysInserts(quirks, sessions, service, description, region, workaround, ParseScope(scope), sessionId, now);
      var sc := ParseScope(scope);
      if sc.None? || !SessionOk(sessionId, sessions) {
        return Err(IntegrityError);
      }
      var id := |quirks| + 1;
      quirks := quirks + [Quirk(id, service, description, region, workaround, sc.value, now, now, sessionId)];
      r := Ok(id);
    }

    /** `reinforce_convention`: +0.1 capped at 1.0; fails on a missing id. */
    method ReinforceConvention(id: int, sessionId: Option<string>, now: string) returns (r: Result<real, StoreError>)
      requires Valid()
      modifies this
      ensures Valid()
      ensures Outcome(r, conventions) == ReinforceOn(old(conventions), sessions, id, sessionId, now)
      ensures sessions == old(sessions) && fixes == old(fixes) && quirks == old(quirks)
    {
      ReinforceKeepsValid(conventions, sessions, id, sessionId, now);
      var found := FindConventionById(conventions, id);
      if found.None? {
        return Err(NotFound(id));
      }
      var i := found.value;
      var row := conventions[i];
      var newConfidence := Min(row.confidence + ReinforceDelta, ConfidenceCap);
      var newDistinct := row.distinctSessions;
      var updateSessionId := row.sessionId;
      if Given(sessionId) && sessionId != row.sessionId {
        newDistinct := newDistinct + 1;
        updateSessionId := sessionId;
      }
      if !SessionOk(updateSessionId, sessions) {
        return Err(IntegrityError);
      }
      conventions := conventions[i := row.(confidence := newConfidence, distinctSessions := newDistinct,
                                           sessionId := updateSessionId, updatedAt := now)];
      r := Ok(newConfidence);
    }

    /** `contradict_convention`: reset to 0.3 without looking the row up first. */
    method ContradictConvention(id: int, now: string) returns (c: real)
      requires Valid()
      modifies this
      ensures Valid()
      ensures Outcome(Ok(c), conventions) == ContradictOn(old(conventions), id, now)
      ensures sessions == old(sessions) && fixes == old(fixes) && quirks == old(quirks)
    {
      ContradictEffect(conventions, sessions, id, now);
      var found := FindConventionById(conventions, id);
      if found.Some? {
        var i := found.value;
        conventions := conventions[i := conventions[i].(confidence := ContradictionReset, updatedAt := now)];
      }
      c := ContradictionReset;
    }

    /** `lookup_fix`: the selected fixes, most hits first. */
    function LookupFix(errorText: Option<string>, errorHash: Option<string>, resource: Option<string>, scopeFilter: Option<string>)
      : (r: seq<Fix>)
      reads this
      ensures SortedDesc(r, HitKey)
      ensures forall f :: f in r <==> f in fixes && FixSelected(f, HashCondition(digest, errorText, errorHash), resource, scopeFilter)
    {
      FixLookup(fixes, digest, errorText, errorHash, resource, scopeFilter)
    }

    /** `lookup_conventions`: the selected conventions, most confident first, each with its effective confidence. */
    method LookupConventions(category: Option<string>, scopeFilter: Option<string>, minConfidence: real)
      returns (results: seq<ScoredConvention>)
      ensures results == Map(ConventionRows(conventions, category, scopeFilter, minConfidence), Scored)
    {
      var rows := ConventionRows(conventions, category, scopeFilter, minConfidence);
      results := [];
      var n := 0;
      while n < |rows|
        invariant 0 <= n <= |rows|
        invariant results == Map(rows[..n], Scored)
      {
        var d := rows[n];
        PrefixPrefix(rows, n);
        results := results + [ScoredConvention(d, EffectiveConfidence(d.confidence, d.distinctSessions))];
        n := n + 1;
      }
      assert rows[..n] == rows;
    }

    /** `lookup_quirks`: the selected quirks in table order. */
    function LookupQuirks(service: Option<string>, region: Option<string>, scopeFilter: Option<string>): (r: seq<Quirk>)
      reads this
      ensures IsSubseq(r, quirks)
      ensures forall q :: q in r <==> q in quirks && QuirkSelected(q, service, region, scopeFilter)
    {
      FilterIsSubseq(quirks, QuirkFilter(service, region, scopeFilter));
      Filter(quirks, QuirkFilter(service, region, scopeFilter))
    }

    /**
     * `query_with_priority`: the canon signatures matching the text, the
     * memory fixes of its hash (every fix when the text is empty), and the
     * two merged with overriding memories first.
     */
    method QueryWithPriority(errorText: string, sigs: CanonFile, re: RegexEngine) returns (r: PriorityResult)
      ensures r.canonResults == CanonResults(errorText, sigs, re)
      ensures r.memoryResults == FixLookup(fixes, digest, Some(errorText), None, None, None)
      ensures r.merged == Merged(r.canonResults, r.memoryResults)
    {
      var canonResults: seq<Entry> := [];
      if sigs.Some? && StrFieldsIn(sigs, "signatures", "error_pattern") {
        var signatures := FileList(sigs, "signatures");
        canonResults := MatchError(re, errorText, signatures);
      }
      var memoryFixes := LookupFix(Some(errorText), None, None, None);
      var merged := MergeWithPriority(canonResults, memoryFixes);
      r := PriorityResult(canonResults, memoryFixes, merged);
    }

    /**
     * `export_for_fork`: a new database, with no sessions, holding copies of
     * the rows of the chosen scopes without their session, and conventions
     * with one distinct session.
     */
    method ExportForFork(scopeFilter: string) returns (dst: Store)
      requires Valid()
      ensures fresh(dst) && dst.Valid()
      ensures dst.digest == digest && dst.sessions == {}
      ensures dst.fixes == ForkFixes(fixes, ForkScopes(scopeFilter))
      ensures dst.conventions == ForkConventions(conventions, ForkScopes(scopeFilter))
      ensures dst.quirks == ForkQuirks(quirks, ForkScopes(scopeFilter))
    {
      dst := new Store(digest, {});
      var scopes := ForkScopes(scopeFilter);
      CopyFixesInto(dst, scopes);
      CopyConventionsInto(dst, scopes);
      CopyQuirksInto(dst, scopes);
      ForkValid(fixes, conventions, quirks, sessions, scopes);
    }

    /** The fixes half of the fork's copy loop. */
    method CopyFixesInto(dst: Store, scopes: set<Scope>)
      requires dst != this && dst.fixes == []
      modifies dst
      ensures dst.fixes == ForkFixes(fixes, scopes)
      ensures dst.sessions == old(dst.sessions) && dst.conventions == old(dst.conventions) && dst.quirks == old(dst.quirks)
    {
      var n := 0;
      while n < |fixes|
        invariant 0 <= n <= |fixes|
        invariant dst.fixes == ForkFixes(fixes[..n], scopes)
        invariant dst.sessions == old(dst.sessions) && dst.conventions == old(dst.conventions) && dst.quirks == old(dst.quirks)
      {
        var f := fixes[n];
        PrefixPrefix(fixes, n);
        if f.scope in scopes {
          dst.fixes := dst.fixes + [f.(id := |dst.fixes| + 1, sessionId := None)];
        }
        n := n + 1;
      }
      assert fixes[..n] == fixes;
    }

    /** The conventions half of the fork's copy loop. */
    method CopyConventionsInto(dst: Store, scopes: set<Scope>)
      requires dst != this && dst.conventions == []
      modifies dst
      ensures dst.conventions == ForkConventions(conventions, scopes)
      ensures dst.sessions == old(dst.sessions) && dst.fixes == old(dst.fixes) && dst.quirks == old(dst.quirks)
    {
      var n := 0;
      while n < |conventions|
        invariant 0 <= n <= |conventions|
        invariant dst.conventions == ForkConventions(conventions[..n], scopes)
        invariant dst.sessions == old(dst.sessions) && dst.fixes == old(dst.fixes) && dst.quirks == old(dst.quirks)
      {
        var c := conventions[n];
        PrefixPrefix(conventions, n);
        if c.scope in scopes {
          dst.conventions := dst.conventions + [c.(id := |dst.conventions| + 1, sessionId := None, distinctSessions := 1)];
        }
        n := n + 1;
      }
      assert conventions[..n] == conventions;
    }

    /** The quirks half of the fork's copy loop. */
    method CopyQuirksInto(dst: Store, scopes: set<Scope>)
      requires dst != this && dst.quirks == []
      modifies dst
      ensures dst.quirks == ForkQuirks(quirks, scopes)
      ensures dst.sessions == old(dst.sessions) && dst.fixes == old(dst.fixes) && dst.conventions == old(dst.conventions)
    {
      var n := 0;
      while n < |quirks|
        invariant 0 <= n <= |quirks|
        invariant dst.quirks == ForkQuirks(quirks[..n], scopes)
        invariant dst.sessions == old(dst.sessions) && dst.fixes == old(dst.fixes) && dst.conventions == old(dst.conventions)
      {
        var q := quirks[n];
        PrefixPrefix(quirks, n);
        if q.scope in scopes {
          dst.quirks := dst.quirks + [q.(id := |dst.quirks| + 1, sessionId := None)];
        }
        n := n + 1;
      }
      assert quirks[..n] == quirks;
    }
  }
}
