/**
 * The settings cache: one entry per company, filled on a read, dropped by every writer but one. The
 * invite code is written past the cache.
 */
module SettingsCache {
  import opened Wrappers
  import opened SettingsTable
  import opened SettingsLens

  type Company = nat
  type Values = map<string, Json>

  const CACHE_TTL := 60_000

  datatype CacheEntry = CacheEntry(values: Values, expiresAt: int)

  /** The table, the cache, when each company's invite code was last written, and the time of the
      latest call. */
  datatype Settings = Settings(table: map<Company, Rows>, cache: map<Company, CacheEntry>, inviteWritten: map<Company, int>, clock: int)

  const INVITE_CODE := Key("invite", "code")

  function Dotted(k: Key): string {
    k.section + ("." + k.name)
  }

  predicate Plain(k: Key) {
    '.' !in k.section
  }

  predicate AllPlain(rows: Rows) {
    forall k :: k in rows ==> Plain(k)
  }

  lemma DottedInjective(a: Key, b: Key)
    requires Plain(a) && Plain(b) && Dotted(a) == Dotted(b)
    ensures a == b
  {
    var s := Dotted(a);
    assert s[|a.section|] == '.' && s[|b.section|] == '.';
    assert a.section == s[..|a.section|] && b.section == s[..|b.section|];
    assert a.name == s[|a.section| + 1..] && b.name == s[|b.section| + 1..];
  }

  /** The values of an entry loaded from these rows. */
  function Flatten(rows: Rows): (values: Values)
    requires AllPlain(rows)
    ensures forall k :: k in rows ==> Dotted(k) in values && values[Dotted(k)] == rows[k]
  {
    forall a, b | a in rows && b in rows && Dotted(a) == Dotted(b) ensures a == b { DottedInjective(a, b); }
    map k | k in rows :: Dotted(k) := rows[k]
  }

  function RowsOf(s: Settings, c: Company): Rows {
    if c in s.table then s.table[c] else map[]
  }

  predicate Live(s: Settings, c: Company, now: int) {
    c in s.cache && s.cache[c].expiresAt > now
  }

  // ── Calls ──

  predicate PlainTable(table: map<Company, Rows>) {
    forall c :: c in table ==> AllPlain(table[c])
  }

  /** Every read goes through this: a live entry stays, otherwise the rows are loaded. */
  function Load(s: Settings, c: Company, now: int): Settings
    requires PlainTable(s.table)
  {
    if Live(s, c, now) then s.(clock := now)
    else s.(cache := s.cache[c := CacheEntry(Flatten(RowsOf(s, c)), now + CACHE_TTL)], clock := now)
  }

  function WriteRows(s: Settings, c: Company, writes: Rows): Settings {
    s.(table := s.table[c := RowsOf(s, c) + writes])
  }

  function WithoutEntry(s: Settings, c: Company): Settings {
    s.(cache := map d | d in s.cache && d != c :: s.cache[d])
  }

  datatype Call =
    | Read(company: Company, now: int)
    | PatchSettings(company: Company, patch: Patch, now: int)
    | PatchSection(company: Company, writes: Rows, now: int)
    | NewInviteCode(company: Company, code: string, now: int)

  /** The permission and AI settings write rows of their own sections. */
  predicate OwnSections(writes: Rows) {
    forall k :: k in writes ==> k.section == "permission" || k.section == "ai"
  }

  predicate Callable(s: Settings, call: Call) {
    PlainTable(s.table) && s.clock <= call.now && (call.PatchSection? ==> OwnSections(call.writes))
  }

  /** The state a call leaves behind. A patch of nothing writes nothing but, for the settings, still
      drops the entry. */
  function Step(s: Settings, call: Call): (after: Settings)
    requires Callable(s, call)
    ensures PlainTable(after.table) && after.clock == call.now
  {
    match call
    case Read(c, now) => Load(s, c, now)
    case PatchSettings(c, patch, now) =>
      PlainWrites(patch);
      Load(WithoutEntry(WriteRows(s, c, Writes(patch)), c), c, now)
    case PatchSection(c, writes, now) =>
      Load(if writes == map[] then s else WithoutEntry(WriteRows(s, c, writes), c), c, now)
    case NewInviteCode(c, code, now) =>
      WriteRows(s, c, map[INVITE_CODE := Text(code)]).(inviteWritten := s.inviteWritten[c := now], clock := now)
  }

  lemma PlainField(f: Field)
    ensures Plain(KeyOf(f)) && KeyOf(f) != INVITE_CODE
  {
    KeyHasMark(f);
    PlainSection(f);
  }

  lemma PlainSection(f: Field)
    ensures KeyOf(f).section in ["general", "attendance", "shift", "break", "approval"]
  {
  }

  lemma PlainWrites(patch: Patch)
    ensures AllPlain(Writes(patch)) && INVITE_CODE !in Writes(patch)
  {
    forall k | k in Writes(patch) ensures Plain(k) && k != INVITE_CODE {
      var f := NamesWriter(patch, k);
      PlainField(f);
    }
  }

  // ── The invariant ──

  predicate Agrees(values: Values, rows: Rows, k: Key) {
    && (Dotted(k) in values <==> k in rows)
    && (k in rows ==> Dotted(k) in values && values[Dotted(k)] == rows[k])
  }

  /** Whether the invite code may have been written since the entry was loaded. */
  predicate MayMissCode(s: Settings, c: Company) {
    c in s.cache && c in s.inviteWritten && s.inviteWritten[c] >= s.cache[c].expiresAt - CACHE_TTL
  }

  /** An entry agrees with the table on every key but, perhaps, the invite code, expired or not. */
  ghost predicate Fresh(s: Settings, c: Company) {
    c in s.cache ==>
      && s.cache[c].expiresAt <= s.clock + CACHE_TTL
      && (forall k :: Plain(k) && (k != INVITE_CODE || !MayMissCode(s, c)) ==> Agrees(s.cache[c].values, RowsOf(s, c), k))
  }

  ghost predicate Inv(s: Settings) {
    PlainTable(s.table) && forall c :: Fresh(s, c)
  }

  lemma FlattenAgrees(rows: Rows, k: Key)
    requires AllPlain(rows) && Plain(k)
    ensures Agrees(Flatten(rows), rows, k)
  {
    if Dotted(k) in Flatten(rows) {
      var j :| j in rows && Dotted(j) == Dotted(k);
      DottedInjective(j, k);
    }
  }

  lemma LoadKeepsInv(s: Settings, c: Company, now: int)
    requires Inv(s) && s.clock <= now
    ensures Inv(Load(s, c, now))
  {
    var after := Load(s, c, now);
    forall d ensures Fresh(after, d) {
      assert Fresh(s, d);
      if d == c && !Live(s, c, now) { LoadedFresh(s, c, now); }
    }
  }

  lemma LoadedFresh(s: Settings, c: Company, now: int)
    requires PlainTable(s.table) && !Live(s, c, now)
    ensures Fresh(Load(s, c, now), c)
  {
    var rows := RowsOf(s, c);
    forall k | Plain(k) ensures Agrees(Flatten(rows), rows, k) { FlattenAgrees(rows, k); }
  }

  lemma WriteKeepsInv(s: Settings, c: Company, writes: Rows)
    requires Inv(s) && AllPlain(writes)
    ensures Inv(WithoutEntry(WriteRows(s, c, writes), c))
  {
    var after := WithoutEntry(WriteRows(s, c, writes), c);
    forall d ensures Fresh(after, d) {
      assert Fresh(s, d);
    }
  }

  lemma CodeKeepsInv(s: Settings, c: Company, code: string, now: int)
    requires Inv(s) && s.clock <= now
    ensures Inv(Step(s, NewInviteCode(c, code, now)))
  {
    var after := Step(s, NewInviteCode(c, code, now));
    forall d ensures Fresh(after, d) {
      assert Fresh(s, d);
      if d == c && c in s.cache {
        assert RowsOf(after, c) == RowsOf(s, c)[INVITE_CODE := Text(code)];
        assert MayMissCode(after, c);
      }
    }
  }

  lemma StepKeepsInv(s: Settings, call: Call)
    requires Inv(s) && Callable(s, call)
    ensures Inv(Step(s, call))
  {
    match call
    case Read(c, now) => LoadKeepsInv(s, c, now);
    case PatchSettings(c, patch, now) =>
      PlainWrites(patch);
      WriteKeepsInv(s, c, Writes(patch));
      LoadKeepsInv(WithoutEntry(WriteRows(s, c, Writes(patch)), c), c, now);
    case PatchSection(c, writes, now) =>
      WriteKeepsInv(s, c, writes);
      LoadKeepsInv(if writes == map[] then s else WithoutEntry(WriteRows(s, c, writes), c), c, now);
    case NewInviteCode(c, code, now) => CodeKeepsInv(s, c, code, now);
  }

  /** Calls in the order of time, each writing sections of its own. */
  predicate InOrder(clock: int, calls: seq<Call>)
    decreases |calls|
  {
    calls == [] ||
    (clock <= calls[0].now && (calls[0].PatchSection? ==> OwnSections(calls[0].writes)) && InOrder(calls[0].now, calls[1..]))
  }

  function Run(s: Settings, calls: seq<Call>): (after: Settings)
    requires PlainTable(s.table) && InOrder(s.clock, calls)
    ensures PlainTable(after.table)
    decreases |calls|
  {
    if calls == [] then s else Run(Step(s, calls[0]), calls[1..])
  }

  lemma {:induction false} RunKeepsInv(s: Settings, calls: seq<Call>)
    requires Inv(s) && InOrder(s.clock, calls)
    ensures Inv(Run(s, calls)) && s.clock <= Run(s, calls).clock
    decreases |calls|
  {
    if calls != [] {
      StepKeepsInv(s, calls[0]);
      RunKeepsInv(Step(s, calls[0]), calls[1..]);
    }
  }

  function Start(table: map<Company, Rows>, clock: int): Settings {
    Settings(table, map[], map[], clock)
  }

  // ── What readers get ──

  /** A value by its key as a service reads it: through the cache. */
  function Get(s: Settings, c: Company, k: Key, now: int): Option<Json>
    requires PlainTable(s.table)
  {
    var values := Load(s, c, now).cache[c].values;
    if Dotted(k) in values then Some(values[Dotted(k)]) else None
  }

  /** The same value from the table. */
  function Direct(s: Settings, c: Company, k: Key): Option<Json> {
    if k in RowsOf(s, c) then Some(RowsOf(s, c)[k]) else None
  }

  function OrElse(value: Option<Json>, fallback: Option<Json>): Option<Json> {
    if value.Some? then value else fallback
  }

  lemma GetIsDirect(s: Settings, c: Company, k: Key, now: int)
    requires Inv(s) && s.clock <= now && Plain(k)
    requires k == INVITE_CODE && c in s.inviteWritten ==> s.inviteWritten[c] + CACHE_TTL <= now
    ensures Get(s, c, k, now) == Direct(s, c, k)
  {
    assert Fresh(s, c);
    if Live(s, c, now) {
      assert k == INVITE_CODE ==> !MayMissCode(s, c);
    } else {
      FlattenAgrees(RowsOf(s, c), k);
    }
  }

  /** After any run of reads, patches of settings, permissions and AI settings, invite codes and time
      passing, a cached read equals the read of the table: at every key but the invite code, and at
      the invite code once a minute has passed since it was written. */
  lemma CachedReadIsExact(table: map<Company, Rows>, clock: int, calls: seq<Call>, c: Company, k: Key, now: int)
    requires PlainTable(table) && InOrder(clock, calls) && Plain(k)
    requires Run(Start(table, clock), calls).clock <= now
    requires var s := Run(Start(table, clock), calls);
             k == INVITE_CODE && c in s.inviteWritten ==> s.inviteWritten[c] + CACHE_TTL <= now
    ensures Get(Run(Start(table, clock), calls), c, k, now) == Direct(Run(Start(table, clock), calls), c, k)
  {
    RunKeepsInv(Start(table, clock), calls);
    GetIsDirect(Run(Start(table, clock), calls), c, k, now);
  }

  // ── What is written ──

  /** What a call writes to a row of a company, if anything. */
  function WrittenBy(call: Call, c: Company, k: Key): Option<Json> {
    if call.company != c then None
    else match call
      case Read(_, _) => None
      case PatchSettings(_, patch, _) => if k in Writes(patch) then Some(Writes(patch)[k]) else None
      case PatchSection(_, writes, _) => if k in writes then Some(writes[k]) else None
      case NewInviteCode(_, code, _) => if k == INVITE_CODE then Some(Text(code)) else None
  }

  /** The latest of what was there and what the calls wrote. */
  function LatestOf(was: Option<Json>, calls: seq<Call>, c: Company, k: Key): Option<Json>
    decreases |calls|
  {
    if calls == [] then was
    else LatestOf(if WrittenBy(calls[0], c, k).Some? then WrittenBy(calls[0], c, k) else was, calls[1..], c, k)
  }

  lemma StepWrites(s: Settings, call: Call, c: Company, k: Key)
    requires Callable(s, call)
    ensures Direct(Step(s, call), c, k) ==
            if WrittenBy(call, c, k).Some? then WrittenBy(call, c, k) else Direct(s, c, k)
  {
    match call
    case Read(_, _) =>
    case PatchSettings(_, patch, _) => RowsWritten(s, call.company, Writes(patch), c, k);
    case PatchSection(_, writes, _) => RowsWritten(s, call.company, writes, c, k);
    case NewInviteCode(_, code, _) => RowsWritten(s, call.company, map[INVITE_CODE := Text(code)], c, k);
  }

  lemma RowsWritten(s: Settings, company: Company, writes: Rows, c: Company, k: Key)
    ensures Direct(WriteRows(s, company, writes), c, k) ==
            if company == c && k in writes then Some(writes[k]) else Direct(s, c, k)
  {
  }

  /** Over every run a row holds what was written to it last. */
  lemma {:induction false} TableIsLatest(s: Settings, calls: seq<Call>, c: Company, k: Key)
    requires PlainTable(s.table) && InOrder(s.clock, calls)
    ensures Direct(Run(s, calls), c, k) == LatestOf(Direct(s, c, k), calls, c, k)
    decreases |calls|
  {
    if calls != [] {
      StepWrites(s, calls[0], c, k);
      TableIsLatest(Step(s, calls[0]), calls[1..], c, k);
    }
  }

  /** So a cached read gives what was written last: at every key but the invite code, and at that once a minute
      has passed since it was written. */
  lemma CachedReadIsLatest(table: map<Company, Rows>, clock: int, calls: seq<Call>, c: Company, k: Key, now: int)
    requires PlainTable(table) && InOrder(clock, calls) && Plain(k)
    requires Run(Start(table, clock), calls).clock <= now
    requires var s := Run(Start(table, clock), calls);
             k == INVITE_CODE && c in s.inviteWritten ==> s.inviteWritten[c] + CACHE_TTL <= now
    ensures Get(Run(Start(table, clock), calls), c, k, now) ==
            LatestOf(if c in table && k in table[c] then Some(table[c][k]) else None, calls, c, k)
  {
    CachedReadIsExact(table, clock, calls, c, k, now);
    TableIsLatest(Start(table, clock), calls, c, k);
  }

  /** Within that minute a new invite code is seen exactly when no entry is still live, or the entry
      happens to hold the same code. */
  lemma NewCodeSeenIff(s: Settings, c: Company, code: string, now: int, later: int)
    requires Inv(s) && s.clock <= now <= later
    ensures var after := Step(s, NewInviteCode(c, code, now));
            && Direct(after, c, INVITE_CODE) == Some(Text(code))
            && (Get(after, c, INVITE_CODE, later) == Some(Text(code)) <==>
                !Live(s, c, later) || Get(s, c, INVITE_CODE, later) == Some(Text(code)))
  {
    var after := Step(s, NewInviteCode(c, code, now));
    FlattenAgrees(RowsOf(after, c), INVITE_CODE);
  }

  /** The settings page shows what the rows hold, and right after a patch what was patched. */
  lemma PageShowsRows(s: Settings, c: Company, f: Field, now: int)
    requires Inv(s) && s.clock <= now
    ensures View(RowsOf(s, c), f) ==
            if Get(s, c, KeyOf(f), now).Some? && !Get(s, c, KeyOf(f), now).value.Null?
            then Get(s, c, KeyOf(f), now).value else DefaultOf(f)
  {
    PlainField(f);
    GetIsDirect(s, c, KeyOf(f), now);
  }

  /** The settings service of one process: the table it writes and the cache in front of it. */
  class SettingsService {
    var table: map<Company, Rows>
    var cache: map<Company, CacheEntry>
    ghost var inviteWritten: map<Company, int>
    ghost var clock: int

    ghost function State(): Settings
      reads this
    {
      Settings(table, cache, inviteWritten, clock)
    }

    constructor (table: map<Company, Rows>, now: int)
      requires PlainTable(table)
      ensures State() == Start(table, now) && Inv(State())
    {
      this.table, cache, inviteWritten, clock := table, map[], map[], now;
    }

    method LoadCompany(c: Company, now: int) returns (values: Values)
      requires Inv(State()) && clock <= now
      modifies this`cache, this`clock
      ensures State() == Load(old(State()), c, now) && Inv(State())
      ensures c in cache && values == cache[c].values
    {
      LoadKeepsInv(State(), c, now);
      clock := now;
      if c in cache && cache[c].expiresAt > now {
        return cache[c].values;
      }
      var rows := if c in table then table[c] else map[];
      values := FlattenRows(rows);
      cache := cache[c := CacheEntry(values, now + CACHE_TTL)];
    }

    method GetSetting(c: Company, k: Key, fallback: Option<Json>, now: int) returns (value: Option<Json>)
      requires Inv(State()) && clock <= now && Plain(k)
      modifies this`cache, this`clock
      ensures State() == Load(old(State()), c, now) && Inv(State())
      ensures value == OrElse(Get(old(State()), c, k, now), fallback)
      ensures (k == INVITE_CODE && c in inviteWritten ==> inviteWritten[c] + CACHE_TTL <= now) ==>
        value == OrElse(Direct(old(State()), c, k), fallback)
    {
      if k == INVITE_CODE && c in inviteWritten ==> inviteWritten[c] + CACHE_TTL <= now {
        GetIsDirect(State(), c, k, now);
      }
      var values := LoadCompany(c, now);
      value := if Dotted(k) in values then Some(values[Dotted(k)]) else fallback;
    }

    method GetAllForApi(c: Company, now: int) returns (page: map<Field, Json>)
      requires Inv(State()) && clock <= now
      modifies this`cache, this`clock
      ensures State() == Load(old(State()), c, now) && Inv(State())
      ensures forall f: Field :: f in page && page[f] == View(RowsOf(old(State()), c), f)
    {
      forall f: Field ensures Get(State(), c, KeyOf(f), now) == Direct(State(), c, KeyOf(f)) {
        PlainField(f);
        GetIsDirect(State(), c, KeyOf(f), now);
      }
      var values := LoadCompany(c, now);
      page := map f: Field | true :: Shown(values, f);
    }

    method Invalidate(c: Company)
      modifies this`cache
      ensures State() == WithoutEntry(old(State()), c)
    {
      cache := map d | d in cache && d != c :: cache[d];
    }

    method PatchFromApi(c: Company, patch: Patch, now: int) returns (page: map<Field, Json>)
      requires Inv(State()) && clock <= now
      modifies this
      ensures State() == Step(old(State()), PatchSettings(c, patch, now)) && Inv(State())
      ensures forall f: Field :: f in page && page[f] == View(Write(RowsOf(old(State()), c), patch), f)
    {
      PlainWrites(patch);
      WriteKeepsInv(State(), c, Writes(patch));
      Upsert(c, Writes(patch));
      Invalidate(c);
      page := GetAllForApi(c, now);
    }

    method Upsert(c: Company, writes: Rows)
      modifies this`table
      ensures State() == WriteRows(old(State()), c, writes)
    {
      var rows := UpsertAll(if c in table then table[c] else map[], writes);
      table := table[c := rows];
    }

    /** The permission and AI patches, which leave the cache alone when they write nothing. */
    method PatchOwnSection(c: Company, writes: Rows, now: int)
      requires Inv(State()) && clock <= now && OwnSections(writes)
      modifies this
      ensures State() == Step(old(State()), PatchSection(c, writes, now)) && Inv(State())
    {
      if writes != map[] {
        WriteKeepsInv(State(), c, writes);
        Upsert(c, writes);
        Invalidate(c);
      }
      var values := LoadCompany(c, now);
    }

    /** The invite code is written past the cache. */
    method GenerateInviteCode(c: Company, code: string, now: int)
      requires Inv(State()) && clock <= now
      modifies this
      ensures State() == Step(old(State()), NewInviteCode(c, code, now)) && Inv(State())
    {
      CodeKeepsInv(State(), c, code, now);
      Upsert(c, map[INVITE_CODE := Text(code)]);
      inviteWritten, clock := inviteWritten[c := now], now;
    }
  }

  function Shown(values: Values, f: Field): Json {
    var k := Dotted(KeyOf(f));
    if k in values && !values[k].Null? then values[k] else DefaultOf(f)
  }

  /** All writes but those left are in. */
  ghost predicate Upserted(rows: Rows, writes: Rows, after: Rows, left: set<Key>) {
    && (forall k :: k in after <==> k in rows || (k in writes && k !in left))
    && (forall k :: k in after ==> after[k] == if k in writes && k !in left then writes[k] else rows[k])
  }

  lemma UpsertedOne(rows: Rows, writes: Rows, after: Rows, left: set<Key>, k: Key)
    requires Upserted(rows, writes, after, left) && k in left && k in writes
    ensures Upserted(rows, writes, after[k := writes[k]], left - {k})
  {
  }

  /** One upsert after the other, in one transaction. */
  method UpsertAll(rows: Rows, writes: Rows) returns (after: Rows)
    ensures after == rows + writes
  {
    after := rows;
    var left := writes.Keys;
    while left != {}
      invariant left <= writes.Keys
      invariant Upserted(rows, writes, after, left)
      decreases |left|
    {
      var k :| k in left;
      UpsertedOne(rows, writes, after, left, k);
      after := after[k := writes[k]];
      left := left - {k};
    }
  }

  /** The loop that fills a new entry. */
  method FlattenRows(rows: Rows) returns (values: Values)
    requires AllPlain(rows)
    ensures values == Flatten(rows)
  {
    values := map[];
    var left := rows.Keys;
    while left != {}
      invariant left <= rows.Keys
      invariant forall k :: k in rows && k !in left ==> Dotted(k) in values && values[Dotted(k)] == rows[k]
      invariant forall s :: s in values ==> exists k :: k in rows && k !in left && Dotted(k) == s
      decreases |left|
    {
      var k :| k in left;
      forall j | j in rows && Dotted(j) == Dotted(k) ensures j == k { DottedInjective(j, k); }
      values := values[Dotted(k) := rows[k]];
      left := left - {k};
    }
  }
}
