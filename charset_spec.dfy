/**
 * What each step of charset resolution does to the registry's state: the
 * catalog of font-encoding slots, the cache of charset records (most
 * recent first) and the next record identity. The methods of
 * CharsetRegistry.Registry are proved to perform exactly these steps; the
 * lemmas here state what the steps guarantee.
 */
module CharsetSpec {
  import opened Wrappers
  import opened Names
  import opened CharsetTypes

  datatype State = State(catalog: seq<FontencEntry>, cache: seq<Charset>, nextId: nat)

  /**
   * The catalog is well formed; every cached record is an allocated one
   * (positive identity below nextId, most recent first), has not failed and
   * carries data; records built from the catalog have an ISO type.
   */
  predicate ValidState(st: State) {
    ValidCatalog(st.catalog) && st.nextId >= 1 &&
    (forall i :: 0 <= i < |st.cache| ==>
      0 < st.cache[i].id < st.nextId && !st.cache[i].ctype.TFailed? && !st.cache[i].data.NoData? &&
      (st.cache[i].data.FontencData? ==> IsIso(st.cache[i].ctype))) &&
    (forall i, j :: 0 <= i < j < |st.cache| ==> st.cache[i].id > st.cache[j].id)
  }

  /** The state at start-up: the compiled-in catalog and an empty cache. */
  const Initial := State(FontencCharsets, [], 1)

  lemma InitialIsValid()
    ensures ValidState(Initial)
  {
    CompiledCatalog();
  }

  /** getCachedCharset's test: same type and final byte, or a matching name, and not failed. */
  predicate CacheMatches(c: Charset, final: char, t: CharsetType, name: Option<string>) {
    ((c.ctype == t && c.final == final) || (name.Some? && LcMatch(c.name, name.value))) && !c.ctype.TFailed?
  }

  /** The position of the first matching record from i on, or |cache|. */
  function CacheScanFrom(cache: seq<Charset>, i: nat, final: char, t: CharsetType, name: Option<string>): (j: nat)
    requires i <= |cache|
    ensures i <= j <= |cache|
    ensures j < |cache| ==> CacheMatches(cache[j], final, t, name)
    ensures forall k :: i <= k < j ==> !CacheMatches(cache[k], final, t, name)
    decreases |cache| - i
  {
    if i == |cache| || CacheMatches(cache[i], final, t, name) then i
    else CacheScanFrom(cache, i + 1, final, t, name)
  }

  /** One step of the cache scan. */
  lemma CacheScanStep(cache: seq<Charset>, i: nat, final: char, t: CharsetType, name: Option<string>)
    requires i < |cache|
    ensures CacheScanFrom(cache, i, final, t, name) ==
      if CacheMatches(cache[i], final, t, name) then i else CacheScanFrom(cache, i + 1, final, t, name)
  {
  }

  /** getCachedCharset: the most recent matching record, if any. */
  function CachedLookup(cache: seq<Charset>, final: char, t: CharsetType, name: Option<string>): (r: Option<Charset>)
    ensures r.Some? ==> r.value in cache && CacheMatches(r.value, final, t, name)
    ensures r.Some? ==> (exists j :: 0 <= j < |cache| && cache[j] == r.value &&
                          forall k :: 0 <= k < j ==> !CacheMatches(cache[k], final, t, name))
    ensures r.None? <==> forall k :: 0 <= k < |cache| ==> !CacheMatches(cache[k], final, t, name)
  {
    var j := CacheScanFrom(cache, 0, final, t, name);
    if j < |cache| then Some(cache[j]) else None
  }

  /** getFontencCharset's test on a catalog slot, as for the cache. */
  predicate SlotMatches(e: FontencEntry, final: char, t: CharsetType, name: Option<string>) {
    e.name.Some? &&
    ((e.ctype == t && e.final == final) || (name.Some? && LcMatch(e.name.value, name.value))) &&
    !e.ctype.TFailed?
  }

  /** Where a catalog scan from i stops: the first matching slot or the first empty one. */
  function ScanFrom(cat: seq<FontencEntry>, i: nat, final: char, t: CharsetType, name: Option<string>): (j: nat)
    requires i <= |cat|
    ensures i <= j <= |cat|
    ensures j < |cat| ==> cat[j].name.None? || SlotMatches(cat[j], final, t, name)
    ensures forall k :: i <= k < j ==> cat[k].name.Some? && !SlotMatches(cat[k], final, t, name)
    ensures i < |cat| && cat[|cat| - 1].name.None? ==> j < |cat|
    decreases |cat| - i
  {
    if i == |cat| || cat[i].name.None? || SlotMatches(cat[i], final, t, name) then i
    else ScanFrom(cat, i + 1, final, t, name)
  }

  /** One step of the catalog scan. */
  lemma ScanStep(cat: seq<FontencEntry>, i: nat, final: char, t: CharsetType, name: Option<string>)
    requires i < |cat|
    ensures ScanFrom(cat, i, final, t, name) ==
      if cat[i].name.None? || SlotMatches(cat[i], final, t, name) then i else ScanFrom(cat, i + 1, final, t, name)
  {
  }

  /** The first matching slot before the first empty one, if any. */
  function CatalogMatch(cat: seq<FontencEntry>, final: char, t: CharsetType, name: Option<string>): (r: Option<nat>)
    ensures r.Some? ==> (r.value < FirstEmptyFrom(cat, 0) && SlotMatches(cat[r.value], final, t, name) &&
                         forall k :: 0 <= k < r.value ==> !SlotMatches(cat[k], final, t, name))
    ensures r.None? <==> forall k :: 0 <= k < FirstEmptyFrom(cat, 0) ==> !SlotMatches(cat[k], final, t, name)
  {
    var j := ScanFrom(cat, 0, final, t, name);
    if j < |cat| && cat[j].name.Some? then Some(j) else None
  }

  /** The slot j marked failed; nothing else changes. */
  function MarkFailed(st: State, j: nat): State
    requires j < |st.catalog|
  {
    st.(catalog := st.catalog[j := st.catalog[j].(ctype := TFailed)])
  }

  /**
   * getFontencCharset: scan the catalog; build the matching slot's mapping
   * and reverse; on success store them in the slot and cache a new record
   * copying the slot's name, type and final byte; on failure mark the slot.
   */
  function FontencStep(st: State, final: char, t: CharsetType, name: Option<string>, b: Backend): (State, Option<Charset>) {
    match CatalogMatch(st.catalog, final, t, name)
    case None => (st, None)
    case Some(j) =>
      var fc := st.catalog[j];
      match b.lookupMapping(fc.xlfd, CpSize(fc.ctype))
      case None => (MarkFailed(st, j), None)
      case Some(m) =>
        match b.lookupReverse(m)
        case None => (MarkFailed(st, j), None)
        case Some(rv) =>
          var c := Charset(st.nextId, fc.name.value, fc.ctype, fc.final, FontencData(j, fc.shift, m, rv));
          (State(st.catalog[j := fc.(mapping := Some(m), reverse := Some(rv))], [c] + st.cache, st.nextId + 1),
           Some(c))
  }

  /** The position in OtherCharsets of the first name matching `name`. */
  function OtherIndex(name: string): (r: Option<nat>)
    ensures r.Some? ==> r.value < |OtherCharsets| && LcMatch(OtherCharsets[r.value], name)
    ensures r.None? <==> forall k :: 0 <= k < |OtherCharsets| ==> !LcMatch(OtherCharsets[k], name)
  {
    OtherIndexFrom(name, 0)
  }

  function OtherIndexFrom(name: string, k: nat): (r: Option<nat>)
    requires k <= |OtherCharsets|
    ensures r.Some? ==> k <= r.value < |OtherCharsets| && LcMatch(OtherCharsets[r.value], name)
    ensures r.None? <==> forall i :: k <= i < |OtherCharsets| ==> !LcMatch(OtherCharsets[i], name)
    decreases |OtherCharsets| - k
  {
    if k == |OtherCharsets| then None
    else if LcMatch(OtherCharsets[k], name) then Some(k)
    else OtherIndexFrom(name, k + 1)
  }

  /** isOtherCharset: a name of OtherCharsets, or Big5 or JOHAB. */
  predicate IsOtherCharset(name: string) {
    OtherIndex(name).Some? || LcMatch(name, "Big5") || LcMatch(name, "JOHAB")
  }

  /**
   * getOtherCharset: a record of type "other" for a matching plugin, cached
   * only when the plugin's init hook succeeds.
   */
  function OtherStep(st: State, name: string, b: Backend): (State, Option<Charset>) {
    match OtherIndex(name)
    case None => (st, None)
    case Some(k) =>
      if b.initOther(k) then
        var c := Charset(st.nextId, OtherCharsets[k], TOther, '\0', OtherData(k));
        (st.(cache := [c] + st.cache, nextId := st.nextId + 1), Some(c))
      else (st, None)
  }

  /** The first empty slot from i on, or |cat|. */
  function FirstEmptyFrom(cat: seq<FontencEntry>, i: nat): (k: nat)
    requires i <= |cat|
    ensures i <= k <= |cat|
    ensures k < |cat| ==> cat[k].name.None?
    ensures forall j :: i <= j < k ==> cat[j].name.Some?
    decreases |cat| - i
  {
    if i == |cat| || cat[i].name.None? then i else FirstEmptyFrom(cat, i + 1)
  }

  /** The type addFontencCharset gives a set of `size` codes per row; None above 128. */
  function SizeType(size: int): (r: Option<CharsetType>)
    ensures r == Some(T94) <==> size <= 94
    ensures r == Some(T96) <==> 94 < size <= 96
    ensures r == Some(T128) <==> 96 < size <= 128
    ensures r.None? <==> size > 128
  {
    if size <= 94 then Some(T94) else if size <= 96 then Some(T96) else if size <= 128 then Some(T128) else None
  }

  /**
   * addFontencCharset: classify the encoding and, when the first empty slot
   * is not the last one, fill it with `name`; 1 when a slot was filled.
   */
  function AddFontencStep(cat: seq<FontencEntry>, name: string, f: FontEnc, b: Backend): (seq<FontencEntry>, int) {
    match SizeType(b.typeOfFontenc(f))
    case None => (cat, 0)
    case Some(t) =>
      var k := FirstEmptyFrom(cat, 0);
      if k + 1 < |cat| then
        (cat[k := cat[k].(name := Some(name), xlfd := name, ctype := t, shift := b.shiftOfFontenc(f))], 1)
      else (cat, 0)
  }

  /** getCharset: the cache, then the catalog, then the placeholder for the type. */
  function GetCharsetSpec(st: State, final: char, t: CharsetType, b: Backend): (State, Charset) {
    match CachedLookup(st.cache, final, t, None)
    case Some(c) => (st, c)
    case None =>
      var (st1, r) := FontencStep(st, final, t, None, b);
      if r.Some? then (st1, r.value) else (st1, UnknownCharset(t))
  }

  /**
   * getCharsetByName: the cache, the catalog, the "other" charsets, then a
   * ".enc" file added to the catalog and the catalog again, then Unknown (94).
   * The type passed to the scans is T_FAILED, so only names match there.
   */
  function GetCharsetByNameSpec(st: State, name: Option<string>, b: Backend): (State, Charset) {
    if name.None? then (st, UnknownCharset(T94))
    else match CachedLookup(st.cache, '\0', TFailed, name)
    case Some(c) => (st, c)
    case None => BuildByName(st, name.value, b)
  }

  /** getCharsetByName after a cache miss: the catalog, then the "other" charsets, then a ".enc" file. */
  function BuildByName(st: State, name: string, b: Backend): (State, Charset) {
    var (st1, r1) := FontencStep(st, '\0', TFailed, Some(name), b);
    if r1.Some? then (st1, r1.value)
    else
      var (st2, r2) := OtherStep(st1, name, b);
      if r2.Some? then (st2, r2.value)
      else EncFileByName(st2, name, b)
  }

  /** The last resort of getCharsetByName: add a ".enc" file to the catalog and scan it again. */
  function EncFileByName(st: State, name: string, b: Backend): (State, Charset) {
    match b.lookupOneFontenc(name)
    case None => (st, UnknownCharset(T94))
    case Some(f) =>
      var (cat1, added) := AddFontencStep(st.catalog, name, f, b);
      if added == 0 then (st.(catalog := cat1), UnknownCharset(T94))
      else
        var (st2, r2) := FontencStep(st.(catalog := cat1), '\0', TFailed, Some(name), b);
        if r2.Some? then (st2, r2.value) else (st2, UnknownCharset(T94))
  }

  // ---------------------------------------------------------------------
  // What the steps guarantee

  /**
   * A catalog step either caches exactly one new record, copied from the
   * matching slot, or leaves the cache alone; a failed build marks the
   * matching slot and changes nothing else.
   */
  lemma FontencStepOutcome(st: State, final: char, t: CharsetType, name: Option<string>, b: Backend)
    requires ValidState(st)
    ensures var (st1, r) := FontencStep(st, final, t, name, b);
      ValidState(st1) && |st1.catalog| == |st.catalog| &&
      (forall k :: 0 <= k < |st.catalog| ==> st1.catalog[k].name == st.catalog[k].name) &&
      (r.None? ==> st1.cache == st.cache && st1.nextId == st.nextId) &&
      (r.None? && CatalogMatch(st.catalog, final, t, name).Some? ==>
        var j := CatalogMatch(st.catalog, final, t, name).value;
        st1.catalog == st.catalog[j := st.catalog[j].(ctype := TFailed)]) &&
      (r.None? && CatalogMatch(st.catalog, final, t, name).None? ==> st1 == st) &&
      (r.Some? <==> (CatalogMatch(st.catalog, final, t, name).Some? &&
                     var fc := st.catalog[CatalogMatch(st.catalog, final, t, name).value];
                     b.lookupMapping(fc.xlfd, CpSize(fc.ctype)).Some? &&
                     b.lookupReverse(b.lookupMapping(fc.xlfd, CpSize(fc.ctype)).value).Some?)) &&
      (r.Some? ==>
        var j := CatalogMatch(st.catalog, final, t, name).value;
        var fc := st.catalog[j];
        var m := b.lookupMapping(fc.xlfd, CpSize(fc.ctype)).value;
        var rv := b.lookupReverse(m).value;
        st1.cache == [r.value] + st.cache && r.value.id == st.nextId && st1.nextId == st.nextId + 1 &&
        Some(r.value.name) == fc.name && r.value.ctype == fc.ctype && r.value.final == fc.final &&
        r.value.data == FontencData(j, fc.shift, m, rv) &&
        st1.catalog == st.catalog[j := fc.(mapping := Some(m), reverse := Some(rv))] &&
        CacheMatches(r.value, final, t, name))
  {
    var (st1, r) := FontencStep(st, final, t, name, b);
    if r.Some? {
      var j := CatalogMatch(st.catalog, final, t, name).value;
      assert IsIso(st.catalog[j].ctype);
      assert ValidCatalog(st1.catalog);
    }
  }

  /**
   * A record getFontencCharset builds recodes through the mapping it stored
   * in its slot, after adding the slot's shift.
   */
  lemma BuiltRecordRecodes(st: State, final: char, t: CharsetType, name: Option<string>, b: Backend, n: nat)
    requires ValidState(st)
    ensures var (st1, r) := FontencStep(st, final, t, name, b);
      r.Some? ==>
        var j := r.value.data.slot;
        j < |st1.catalog| && st1.catalog[j].mapping == Some(r.value.data.mapping) &&
        (n + st.catalog[j].shift < TWO_32 ==>
           Recode(r.value, n, b) == b.mapCode(n + st.catalog[j].shift, st1.catalog[j].mapping.value))
  {
    var (st1, r) := FontencStep(st, final, t, name, b);
    if r.Some? {
      FontencStepOutcome(st, final, t, name, b);
      if n + st.catalog[r.value.data.slot].shift < TWO_32 {
        FontencRecodeShifts(r.value, n, b);
      }
    }
  }

  /** A failed slot stays failed: no step of the registry turns it back into a usable slot. */
  lemma FailureIsSticky(st: State, final: char, t: CharsetType, name: Option<string>, b: Backend, k: nat)
    requires ValidState(st) && k < |st.catalog| && st.catalog[k].name.Some? && st.catalog[k].ctype.TFailed?
    ensures FontencStep(st, final, t, name, b).0.catalog[k] == st.catalog[k]
    ensures CatalogMatch(st.catalog, final, t, name) != Some(k)
    ensures forall n, f :: AddFontencStep(st.catalog, n, f, b).0[k] == st.catalog[k]
  {
    forall n, f ensures AddFontencStep(st.catalog, n, f, b).0[k] == st.catalog[k] {
      var e := FirstEmptyFrom(st.catalog, 0);
      assert e != k;
    }
  }

  /** An "other" step caches one record when the init hook succeeds, and nothing otherwise. */
  lemma OtherStepOutcome(st: State, name: string, b: Backend)
    requires ValidState(st)
    ensures var (st1, r) := OtherStep(st, name, b);
      ValidState(st1) && st1.catalog == st.catalog &&
      (r.None? ==> st1 == st) &&
      (r.None? <==> OtherIndex(name).None? || !b.initOther(OtherIndex(name).value)) &&
      (r.Some? ==> st1.cache == [r.value] + st.cache && st1.nextId == st.nextId + 1 &&
                   r.value.id == st.nextId && r.value.ctype == TOther &&
                   r.value.data == OtherData(OtherIndex(name).value) &&
                   r.value.name == OtherCharsets[OtherIndex(name).value] &&
                   LcMatch(r.value.name, name))
  {
  }

  /**
   * addFontencCharset returns 1 exactly when it fills a slot: a size up to
   * 128 and a first empty slot that is not the last. It fills that slot and
   * nothing else, so the empty terminator survives and the catalog stays
   * well formed.
   */
  lemma AddFontencOutcome(cat: seq<FontencEntry>, name: string, f: FontEnc, b: Backend)
    requires ValidCatalog(cat)
    ensures var (cat1, added) := AddFontencStep(cat, name, f, b);
      var k := FirstEmptyFrom(cat, 0);
      ValidCatalog(cat1) && |cat1| == |cat| &&
      (added == 0 || added == 1) &&
      (added == 1 <==> b.typeOfFontenc(f) <= 128 && k + 1 < |cat|) &&
      (added == 0 ==> cat1 == cat) &&
      (added == 1 ==> cat1[k].name == Some(name) && cat1[k].ctype == SizeType(b.typeOfFontenc(f)).value &&
                      forall i :: 0 <= i < |cat| && i != k ==> cat1[i] == cat[i])
  {
    var (cat1, added) := AddFontencStep(cat, name, f, b);
    var k := FirstEmptyFrom(cat, 0);
    if added == 1 {
      forall i, j | 0 <= i < j < |cat1| && cat1[i].name.None? ensures cat1[j].name.None? {
        assert i != k;
      }
    }
  }

  /** After a slot is added under `name`, a scan by that name stops at a named slot no later than it. */
  lemma RetryFindsAddedSlot(cat: seq<FontencEntry>, name: string, f: FontEnc, b: Backend)
    requires ValidCatalog(cat)
    requires AddFontencStep(cat, name, f, b).1 == 1
    ensures var cat1 := AddFontencStep(cat, name, f, b).0;
      CatalogMatch(cat1, '\0', TFailed, Some(name)).Some? &&
      CatalogMatch(cat1, '\0', TFailed, Some(name)).value <= FirstEmptyFrom(cat, 0)
  {
    var cat1 := AddFontencStep(cat, name, f, b).0;
    var k := FirstEmptyFrom(cat, 0);
    LcMatchIsEquivalence(name, name, name);
    assert SlotMatches(cat1[k], '\0', TFailed, Some(name));
    var j := ScanFrom(cat1, 0, '\0', TFailed, Some(name));
    assert j <= k;
  }

  /** getCharset never yields NULL: its result is a cached record or the placeholder for the type. */
  lemma GetCharsetResult(st: State, final: char, t: CharsetType, b: Backend)
    requires ValidState(st)
    ensures var (st1, c) := GetCharsetSpec(st, final, t, b);
      ValidState(st1) && (c in st1.cache || c == UnknownCharset(t)) &&
      (c.id == 0 <==> c == UnknownCharset(t)) &&
      (c in st1.cache ==> CacheMatches(c, final, t, None))
  {
    if CachedLookup(st.cache, final, t, None).None? {
      FontencStepOutcome(st, final, t, None, b);
    }
  }

  /**
   * Once getCharset has returned a record for (final, type), asking again
   * returns the same record and changes nothing.
   */
  lemma GetCharsetAgain(st: State, final: char, t: CharsetType, b: Backend)
    requires ValidState(st)
    ensures var (st1, c) := GetCharsetSpec(st, final, t, b);
      c.id != 0 ==> GetCharsetSpec(st1, final, t, b) == (st1, c)
  {
    var (st1, c) := GetCharsetSpec(st, final, t, b);
    if CachedLookup(st.cache, final, t, None).None? {
      FontencStepOutcome(st, final, t, None, b);
      if c.id != 0 {
        assert st1.cache[0] == c;
        assert CacheScanFrom(st1.cache, 0, final, t, None) == 0;
      }
    }
  }

  /** What a name lookup that built or fell back guarantees: a new record heads the cache. */
  predicate BuiltByName(st1: State, c: Charset, name: string) {
    ValidState(st1) && (c.id == 0 <==> c == UnknownCharset(T94)) &&
    (c.id != 0 ==> |st1.cache| > 0 && st1.cache[0] == c && LcMatch(c.name, name) && !c.ctype.TFailed?)
  }

  lemma EncFileByNameOutcome(st: State, name: string, b: Backend)
    requires ValidState(st)
    ensures var (st1, c) := EncFileByName(st, name, b); BuiltByName(st1, c, name)
  {
    if b.lookupOneFontenc(name).Some? {
      var f := b.lookupOneFontenc(name).value;
      AddFontencOutcome(st.catalog, name, f, b);
      var cat1 := AddFontencStep(st.catalog, name, f, b).0;
      FontencStepOutcome(st.(catalog := cat1), '\0', TFailed, Some(name), b);
    }
  }

  lemma BuildByNameOutcome(st: State, name: string, b: Backend)
    requires ValidState(st)
    ensures var (st1, c) := BuildByName(st, name, b); BuiltByName(st1, c, name)
  {
    FontencStepOutcome(st, '\0', TFailed, Some(name), b);
    var (st1, r1) := FontencStep(st, '\0', TFailed, Some(name), b);
    if r1.None? {
      OtherStepOutcome(st1, name, b);
      var (st2, r2) := OtherStep(st1, name, b);
      if r2.None? {
        EncFileByNameOutcome(st2, name, b);
      }
    }
  }

  /** getCharsetByName never yields NULL: a cached record whose name matches, or Unknown (94). */
  lemma GetCharsetByNameResult(st: State, name: Option<string>, b: Backend)
    requires ValidState(st)
    ensures var (st1, c) := GetCharsetByNameSpec(st, name, b);
      ValidState(st1) && (c in st1.cache || c == UnknownCharset(T94)) &&
      (c.id == 0 <==> c == UnknownCharset(T94)) &&
      (c in st1.cache ==> name.Some? && LcMatch(c.name, name.value)) &&
      (c.id != 0 ==> CachedLookup(st1.cache, '\0', TFailed, name) == Some(c))
  {
    var (st1, c) := GetCharsetByNameSpec(st, name, b);
    if name.Some? && CachedLookup(st.cache, '\0', TFailed, name).None? {
      BuildByNameOutcome(st, name.value, b);
      if c.id != 0 {
        assert CacheMatches(st1.cache[0], '\0', TFailed, name);
        assert CacheScanFrom(st1.cache, 0, '\0', TFailed, name) == 0;
      }
    }
  }

  /** Once getCharsetByName has returned a record for a name, asking again returns it and changes nothing. */
  lemma GetCharsetByNameAgain(st: State, name: Option<string>, b: Backend)
    requires ValidState(st)
    ensures var (st1, c) := GetCharsetByNameSpec(st, name, b);
      c.id != 0 ==> GetCharsetByNameSpec(st1, name, b) == (st1, c)
  {
    GetCharsetByNameResult(st, name, b);
  }

  /** The ".enc" step puts at most one record in the cache, the one it returns, in front. */
  lemma EncFileCache(st: State, name: string, b: Backend)
    requires ValidState(st)
    ensures var (st1, c) := EncFileByName(st, name, b);
      st1.cache == st.cache || st1.cache == [c] + st.cache
  {
    match b.lookupOneFontenc(name)
    case None =>
    case Some(f) =>
      AddFontencOutcome(st.catalog, name, f, b);
      var (cat1, added) := AddFontencStep(st.catalog, name, f, b);
      if added != 0 {
        FontencStepOutcome(st.(catalog := cat1), '\0', TFailed, Some(name), b);
      }
  }

  /** getCharsetByName puts at most one record in the cache, the one it returns, in front. */
  lemma GetCharsetByNameCache(st: State, name: Option<string>, b: Backend)
    requires ValidState(st)
    ensures var (st1, c) := GetCharsetByNameSpec(st, name, b);
      st1.cache == st.cache || st1.cache == [c] + st.cache
  {
    if name.Some? && CachedLookup(st.cache, '\0', TFailed, name).None? {
      FontencStepOutcome(st, '\0', TFailed, name, b);
      var (st1, r1) := FontencStep(st, '\0', TFailed, name, b);
      if r1.None? {
        OtherStepOutcome(st1, name.value, b);
        var (st2, r2) := OtherStep(st1, name.value, b);
        if r2.None? {
          EncFileCache(st2, name.value, b);
        }
      }
    }
  }

  /** A NULL name gives Unknown (94) at once. */
  lemma NullNameIsUnknown(st: State, b: Backend)
    ensures GetCharsetByNameSpec(st, None, b) == (st, UnknownCharset(T94))
  {
  }
}
