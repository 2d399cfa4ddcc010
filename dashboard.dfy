/**
 * The analysis cache and its orchestration in the student dashboard
 * (components/StudentDashboard.tsx): records `{ts, data}` kept in
 * localStorage under the cache key, expired lazily on read, and
 * `fetchAnalysis`, which serves a fresh cached record unless forced and
 * otherwise asks the provider and caches whatever comes back.
 */
module Dashboard {
  import opened Wrappers
  import opened Types
  import opened Json
  import opened Storage
  import opened CacheKey
  import opened Gemini

  /** 24 hours in milliseconds. */
  const CacheTtl: int := 1000 * 60 * 60 * 24

  /**
   * The stored record. The `parse` of a record codec maps JSON text that
   * parses to a value without a truthy `ts` to a record with ts = 0, and
   * returns None only where JSON.parse throws.
   */
  datatype CacheRecord = CacheRecord(ts: int, data: PerformanceAnalysis)

  /** Whether a record read at time now must be discarded. */
  predicate Stale(rec: CacheRecord, now: int)
  {
    rec.ts == 0 || now - rec.ts > CacheTtl
  }

  /** What a cache read returns, and the store after it. */
  datatype Lookup = Lookup(found: Option<CacheRecord>, items: map<string, string>)

  /**
   * getCachedAnalysis: null for unavailable storage, a missing key or empty
   * text; null, keeping the entry, for text JSON.parse rejects; null,
   * removing the entry, for a stale record; the record otherwise.
   */
  function LookupCached(items: map<string, string>, available: bool, key: string, now: int,
                        parse: string -> Option<CacheRecord>): Lookup
  {
    if !available || key !in items || items[key] == "" then Lookup(None, items)
    else
      match parse(items[key])
      case None => Lookup(None, items)
      case Some(rec) => if Stale(rec, now) then Lookup(None, items - {key}) else Lookup(Some(rec), items)
  }

  /** setCachedAnalysis: stores `{ts: now, data}`; every failure is ignored. */
  function StoreCached(items: map<string, string>, available: bool, full: bool, key: string,
                       data: PerformanceAnalysis, now: int, stringify: CacheRecord -> Option<string>)
    : map<string, string>
  {
    Saved(items, available, full, key, stringify(CacheRecord(now, data)))
  }

  /** What fetchAnalysis returns, the analysis shown afterwards, and the store afterwards. */
  datatype Fetched = Fetched(result: Option<PerformanceAnalysis>, shown: Option<PerformanceAnalysis>,
                             items: map<string, string>, askedProvider: bool)

  /**
   * fetchAnalysis(force): nothing at all for a student without entries;
   * unless forced, a fresh cached record is shown and returned; otherwise
   * the provider's analysis (or its fallback) is shown, cached under the
   * key with the completion time, and returned.
   */
  function FetchOutcome(shown: Option<PerformanceAnalysis>, items: map<string, string>, available: bool, full: bool,
                        key: string, hasScores: bool, force: bool, now: int, reply: ProviderReply, doneAt: int,
                        records: Codec<CacheRecord>, parseReply: string -> Option<PerformanceAnalysis>): Fetched
  {
    if !hasScores then Fetched(None, shown, items, false)
    else
      var look := if force then Lookup(None, items) else LookupCached(items, available, key, now, records.parse);
      if look.found.Some? then Fetched(Some(look.found.value.data), Some(look.found.value.data), look.items, false)
      else
        var result := AnalyzePerformance(reply, parseReply);
        Fetched(Some(result), Some(result),
                StoreCached(look.items, available, full, key, result, doneAt, records.stringify), true)
  }

  /** The dashboard of one student, with the component state the cache logic touches. */
  class StudentDashboard {
    const ls: LocalStorage
    const student: Student
    /** JSON.stringify / JSON.parse of cache records. */
    const records: Codec<CacheRecord>
    /** JSON.stringify of the key projection. */
    const projection: seq<Projection> -> Option<string>
    /** JSON.parse of the provider's reply text. */
    const parseReply: string -> Option<PerformanceAnalysis>
    var analysis: Option<PerformanceAnalysis>
    var loading: bool

    constructor(ls: LocalStorage, student: Student, records: Codec<CacheRecord>,
                projection: seq<Projection> -> Option<string>, parseReply: string -> Option<PerformanceAnalysis>)
      ensures this.ls == ls && this.student == student && this.records == records
      ensures this.projection == projection && this.parseReply == parseReply
      ensures analysis == None && !loading
    {
      this.ls := ls;
      this.student := student;
      this.records := records;
      this.projection := projection;
      this.parseReply := parseReply;
      analysis := None;
      loading := false;
    }

    method GetCachedAnalysis(key: string, now: int) returns (r: Option<CacheRecord>)
      modifies ls`items
      ensures Lookup(r, ls.items) == LookupCached(old(ls.items), ls.available, key, now, records.parse)
    {
      var got := ls.GetItem(key);
      if got.Failure? || got.value.None? || got.value.value == "" {
        return None;
      }
      var parsed := records.parse(got.value.value);
      if parsed.None? {
        return None;
      }
      if parsed.value.ts == 0 || now - parsed.value.ts > CacheTtl {
        var _ := ls.RemoveItem(key);
        return None;
      }
      r := parsed;
    }

    method SetCachedAnalysis(key: string, data: PerformanceAnalysis, now: int)
      modifies ls`items
      ensures ls.items == StoreCached(old(ls.items), ls.available, ls.full, key, data, now, records.stringify)
    {
      SaveToLocalStorage(ls, key, CacheRecord(now, data), records.stringify);
    }

    /**
     * fetchAnalysis for the entries `studentScores` of this student.
     * `now` is the time of the cache read, `reply` what the provider did and
     * `doneAt` the time its answer arrived; loading ends false whenever the
     * provider was asked.
     */
    method FetchAnalysis(studentScores: seq<ScoreEntry>, force: bool, now: int, reply: ProviderReply, doneAt: int)
      returns (r: Option<PerformanceAnalysis>)
      modifies this`analysis, this`loading, ls`items
      ensures var o := FetchOutcome(old(analysis), old(ls.items), ls.available, ls.full,
                                    KeyFor(student.id, projection(Project(studentScores))), studentScores != [],
                                    force, now, reply, doneAt, records, parseReply);
              r == o.result && analysis == o.shown && ls.items == o.items
              && loading == (if o.askedProvider then false else old(loading))
    {
      if studentScores == [] {
        return None;
      }
      var key := MakeCacheKey(student.id, studentScores, projection);
      if !force {
        var cached := GetCachedAnalysis(key, now);
        if cached.Some? {
          analysis := Some(cached.value.data);
          return Some(cached.value.data);
        }
      }
      loading := true;
      var result := AnalyzePerformance(reply, parseReply);
      analysis := Some(result);
      SetCachedAnalysis(key, result, doneAt);
      loading := false;
      r := Some(result);
    }

    /** runAnalysis: a forced fetch. */
    method RunAnalysis(studentScores: seq<ScoreEntry>, now: int, reply: ProviderReply, doneAt: int)
      modifies this`analysis, this`loading, ls`items
      ensures var o := FetchOutcome(old(analysis), old(ls.items), ls.available, ls.full,
                                    KeyFor(student.id, projection(Project(studentScores))), studentScores != [],
                                    true, now, reply, doneAt, records, parseReply);
              analysis == o.shown && ls.items == o.items && loading == (if o.askedProvider then false else old(loading))
    {
      var _ := FetchAnalysis(studentScores, true, now, reply, doneAt);
    }

    /** The mount effect: shows a fresh cached record if there is one, and never asks the provider. */
    method Mount(studentScores: seq<ScoreEntry>, now: int)
      modifies this`analysis, ls`items
      ensures var look := LookupCached(old(ls.items), ls.available,
                                       KeyFor(student.id, projection(Project(studentScores))), now, records.parse);
              ls.items == look.items
              && analysis == (if look.found.Some? then Some(look.found.value.data) else old(analysis))
    {
      var key := MakeCacheKey(student.id, studentScores, projection);
      var cached := GetCachedAnalysis(key, now);
      if cached.Some? {
        analysis := Some(cached.value.data);
      }
    }
  }

  // ---------------------------------------------------------------------
  // Properties of the cache

  /**
   * Round trip: a record stored at t ≠ 0 whose text parses back is served,
   * unchanged and without touching the store, at any time up to t + 24 h.
   */
  lemma CacheRoundTrip(items: map<string, string>, key: string, data: PerformanceAnalysis, t: int, now: int,
                       records: Codec<CacheRecord>)
    requires t != 0 && now - t <= CacheTtl
    requires records.stringify(CacheRecord(t, data)).Some?
    requires records.stringify(CacheRecord(t, data)).value != ""
    requires records.parse(records.stringify(CacheRecord(t, data)).value) == Some(CacheRecord(t, data))
    ensures var stored := StoreCached(items, true, false, key, data, t, records.stringify);
            LookupCached(stored, true, key, now, records.parse) == Lookup(Some(CacheRecord(t, data)), stored)
  {
  }

  /** A record exactly 24 hours old is still served. */
  lemma ExactlyTtlIsFresh(rec: CacheRecord)
    requires rec.ts != 0
    ensures !Stale(rec, rec.ts + CacheTtl) && Stale(rec, rec.ts + CacheTtl + 1)
  {
  }

  /**
   * A stale record (ts missing or 0, or older than 24 h) is reported absent
   * and deleted, every other key untouched, and a second read finds nothing.
   */
  lemma StaleRecordPurged(items: map<string, string>, key: string, now: int, parse: string -> Option<CacheRecord>)
    requires key in items && items[key] != ""
    requires parse(items[key]).Some? && Stale(parse(items[key]).value, now)
    ensures LookupCached(items, true, key, now, parse) == Lookup(None, items - {key})
    ensures forall k :: k != key && k in items ==> k in LookupCached(items, true, key, now, parse).items
    ensures LookupCached(items - {key}, true, key, now, parse) == Lookup(None, items - {key})
  {
  }

  /** Text JSON.parse rejects makes the read null, and the entry stays in place. */
  lemma CorruptEntryKept(items: map<string, string>, available: bool, key: string, now: int,
                         parse: string -> Option<CacheRecord>)
    requires key in items && parse(items[key]).None?
    ensures LookupCached(items, available, key, now, parse) == Lookup(None, items)
  {
  }

  /** A read only ever removes its own key, and otherwise leaves the store as it was. */
  lemma LookupOnlyPurgesKey(items: map<string, string>, available: bool, key: string, now: int,
                            parse: string -> Option<CacheRecord>)
    ensures var after := LookupCached(items, available, key, now, parse).items;
            after == items || (key in items && after == items - {key})
    ensures LookupCached(items, available, key, now, parse).found.Some? ==>
            LookupCached(items, available, key, now, parse).items == items
  {
  }

  // ---------------------------------------------------------------------
  // Properties of fetchAnalysis

  /** Without entries nothing is read, asked, stored or shown. */
  lemma FetchWithoutScores(shown: Option<PerformanceAnalysis>, items: map<string, string>, available: bool, full: bool,
                           key: string, force: bool, now: int, reply: ProviderReply, doneAt: int,
                           records: Codec<CacheRecord>, parseReply: string -> Option<PerformanceAnalysis>)
    ensures FetchOutcome(shown, items, available, full, key, false, force, now, reply, doneAt, records, parseReply)
         == Fetched(None, shown, items, false)
  {
  }

  /** An unforced fetch with a fresh cached record returns its data and does not depend on the provider. */
  lemma FetchServesCache(shown: Option<PerformanceAnalysis>, items: map<string, string>, available: bool, full: bool,
                         key: string, now: int, reply: ProviderReply, other: ProviderReply, doneAt: int,
                         records: Codec<CacheRecord>, parseReply: string -> Option<PerformanceAnalysis>)
    requires LookupCached(items, available, key, now, records.parse).found.Some?
    ensures var o := FetchOutcome(shown, items, available, full, key, true, false, now, reply, doneAt, records, parseReply);
            o == FetchOutcome(shown, items, available, full, key, true, false, now, other, doneAt, records, parseReply)
            && !o.askedProvider && o.items == items
            && o.result == Some(LookupCached(items, available, key, now, records.parse).found.value.data)
  {
  }

  /**
   * A forced fetch, or one that finds no fresh record, shows and returns
   * what analyzePerformance gave, fallbacks included, and stores it under
   * the key stamped with the completion time.
   */
  lemma FetchAsksAndStores(shown: Option<PerformanceAnalysis>, items: map<string, string>, available: bool,
                           full: bool, key: string, force: bool, now: int, reply: ProviderReply, doneAt: int,
                           records: Codec<CacheRecord>, parseReply: string -> Option<PerformanceAnalysis>)
    requires force || LookupCached(items, available, key, now, records.parse).found.None?
    ensures var o := FetchOutcome(shown, items, available, full, key, true, force, now, reply, doneAt, records, parseReply);
            var before := if force then items else LookupCached(items, available, key, now, records.parse).items;
            o.askedProvider
            && o.result == Some(AnalyzePerformance(reply, parseReply)) && o.shown == o.result
            && o.items == StoreCached(before, available, full, key, AnalyzePerformance(reply, parseReply), doneAt,
                                      records.stringify)
  {
  }

  /** When the provider throws, the unavailable fallback is what gets cached. */
  lemma FallbackIsCached(items: map<string, string>, key: string, now: int, doneAt: int, text: string,
                         records: Codec<CacheRecord>, parseReply: string -> Option<PerformanceAnalysis>)
    requires records.stringify(CacheRecord(doneAt, ServiceUnavailable)) == Some(text)
    ensures var o := FetchOutcome(None, items, true, false, key, true, true, now, Threw, doneAt, records, parseReply);
            key in o.items && o.items[key] == text
  {
  }

  /**
   * A fetch that asked the provider is followed, within 24 hours, by an
   * unforced fetch that serves the same analysis from the cache and does
   * not ask again.
   */
  lemma FetchThenCached(shown: Option<PerformanceAnalysis>, items: map<string, string>, key: string,
                        force: bool, now: int, reply: ProviderReply, doneAt: int, later: int, next: ProviderReply,
                        records: Codec<CacheRecord>, parseReply: string -> Option<PerformanceAnalysis>)
    requires doneAt != 0 && later - doneAt <= CacheTtl
    requires force || LookupCached(items, true, key, now, records.parse).found.None?
    requires var rec := CacheRecord(doneAt, AnalyzePerformance(reply, parseReply));
             records.stringify(rec).Some? && records.stringify(rec).value != ""
             && records.parse(records.stringify(rec).value) == Some(rec)
    ensures var first := FetchOutcome(shown, items, true, false, key, true, force, now, reply, doneAt, records, parseReply);
            var second := FetchOutcome(first.shown, first.items, true, false, key, true, false, later, next, later,
                                       records, parseReply);
            second.result == first.result && !second.askedProvider && second.items == first.items
  {
    var result := AnalyzePerformance(reply, parseReply);
    var before := if force then items else LookupCached(items, true, key, now, records.parse).items;
    CacheRoundTrip(before, key, result, doneAt, later, records);
  }
}
