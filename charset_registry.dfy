/**
 * The process-wide state of luit's charset layer as an object: the
 * fontencCharsets catalog, updated in place, and the cachedCharsets list.
 * Every method performs exactly the step of CharsetSpec named in its
 * contract, so the lemmas proved there hold of these methods.
 */
module CharsetRegistry {
  import opened Wrappers
  import opened Names
  import opened CharsetTypes
  import opened CharsetSpec

  /** findOtherCharset: the position of the first "other" charset whose name matches. */
  method FindOtherCharset(name: string) returns (r: Option<nat>)
    ensures r == OtherIndex(name)
  {
    var k := 0;
    while k < |OtherCharsets|
      invariant k <= |OtherCharsets|
      invariant OtherIndexFrom(name, k) == OtherIndex(name)
    {
      var cmp := LcStrCmp(OtherCharsets[k], name);
      if cmp == 0 {
        return Some(k);
      }
      k := k + 1;
    }
    return None;
  }

  /** isOtherCharset: one of the "other" charsets, or Big5, or JOHAB. */
  method IsOther(name: string) returns (r: bool)
    ensures r == IsOtherCharset(name)
  {
    var fc := FindOtherCharset(name);
    r := fc.Some?;
    if !r {
      var big5 := LcStrCmp(name, "Big5");
      var johab := LcStrCmp(name, "JOHAB");
      r := big5 == 0 || johab == 0;
    }
  }

  /** getCachedCharset's test on one record. */
  method RecordMatches(c: Charset, final: char, t: CharsetType, name: Option<string>) returns (hit: bool)
    ensures hit == CacheMatches(c, final, t, name)
  {
    hit := c.ctype == t && c.final == final;
    if !hit && name.Some? {
      var cmp := LcStrCmp(c.name, name.value);
      hit := cmp == 0;
    }
    hit := hit && !c.ctype.TFailed?;
  }

  /** getFontencCharset's test on one named slot. */
  method SlotHit(fc: FontencEntry, final: char, t: CharsetType, name: Option<string>) returns (hit: bool)
    requires fc.name.Some?
    ensures hit == SlotMatches(fc, final, t, name)
  {
    hit := fc.ctype == t && fc.final == final;
    if !hit && name.Some? {
      var cmp := LcStrCmp(fc.name.value, name.value);
      hit := cmp == 0;
    }
    hit := hit && !fc.ctype.TFailed?;
  }

  class Registry {
    /** fontencCharsets: its slots are rewritten when built, failed or added. */
    const catalog: array<FontencEntry>
    /** cachedCharsets, most recently cached first. */
    var cache: seq<Charset>
    /** The identity the next allocated record receives. */
    var nextId: nat

    function State(): State
      reads this, catalog
    {
      CharsetSpec.State(catalog[..], cache, nextId)
    }

    predicate Valid()
      reads this, catalog
    {
      ValidState(State())
    }

    /** The registry at start-up: the compiled-in catalog, nothing cached. */
    constructor ()
      ensures Valid() && State() == Initial && fresh(catalog)
    {
      CompiledCatalog();
      catalog := new FontencEntry[|FontencCharsets|](i requires 0 <= i < |FontencCharsets| => FontencCharsets[i]);
      cache := [];
      nextId := 1;
      new;
      assert catalog[..] == FontencCharsets;
      InitialIsValid();
    }

    /** getCachedCharset: the most recent cached record matching the type and final byte or the name. */
    method GetCachedCharset(final: char, t: CharsetType, name: Option<string>) returns (r: Option<Charset>)
      ensures r == CachedLookup(cache, final, t, name)
    {
      ghost var j := CacheScanFrom(cache, 0, final, t, name);
      var i := 0;
      while i < |cache|
        invariant i <= j <= |cache|
        invariant CacheScanFrom(cache, i, final, t, name) == j
      {
        var hit := RecordMatches(cache[i], final, t, name);
        CacheScanStep(cache, i, final, t, name);
        if hit {
          return Some(cache[i]);
        }
        i := i + 1;
      }
      return None;
    }

    /** cacheCharset: prepend a record to the cache. */
    method CacheCharset(c: Charset)
      modifies this
      ensures cache == [c] + old(cache) && nextId == old(nextId)
    {
      cache := [c] + cache;
    }

    /** The scan of getFontencCharset: the first live matching slot before the first empty one, or that empty slot. */
    method FindFontencSlot(final: char, t: CharsetType, name: Option<string>) returns (i: nat)
      requires catalog.Length > 0 && catalog[catalog.Length - 1].name.None?
      ensures i == ScanFrom(catalog[..], 0, final, t, name) && i < catalog.Length
    {
      ghost var cat := catalog[..];
      ghost var j := ScanFrom(cat, 0, final, t, name);
      i := 0;
      while catalog[i].name.Some?
        invariant 0 <= i <= j < catalog.Length
        invariant ScanFrom(cat, i, final, t, name) == j
        decreases catalog.Length - i
      {
        var hit := SlotHit(catalog[i], final, t, name);
        ScanStep(cat, i, final, t, name);
        if hit {
          return;
        }
        i := i + 1;
      }
      ScanStep(cat, i, final, t, name);
    }

    /**
     * getFontencCharset: scan the catalog up to its first empty slot; build
     * the matching slot's mapping and reverse, marking the slot failed when
     * either lookup fails, and cache a record for it when both succeed.
     */
    method GetFontencCharset(final: char, t: CharsetType, name: Option<string>, b: Backend) returns (result: Option<Charset>)
      requires Valid()
      modifies this, catalog
      ensures Valid()
      ensures (State(), result) == FontencStep(old(State()), final, t, name, b)
    {
      ghost var st := State();
      FontencStepOutcome(st, final, t, name, b);
      var i := FindFontencSlot(final, t, name);
      result := None;
      if catalog[i].name.Some? {
        assert CatalogMatch(st.catalog, final, t, name) == Some(i);
        var fc := catalog[i];
        var mapping := b.lookupMapping(fc.xlfd, CpSize(fc.ctype));
        if mapping.None? {
          catalog[i] := fc.(ctype := TFailed);
        } else {
          var reverse := b.lookupReverse(mapping.value);
          if reverse.None? {
            catalog[i] := fc.(ctype := TFailed);
          } else {
            catalog[i] := fc.(mapping := mapping, reverse := reverse);
            var c := Charset(nextId, fc.name.value, fc.ctype, fc.final,
                             FontencData(i, fc.shift, mapping.value, reverse.value));
            nextId := nextId + 1;
            CacheCharset(c);
            result := Some(c);
          }
        }
      }
      assert (State(), result) == FontencStep(st, final, t, name, b);
    }

    /** getOtherCharset: a record for a matching "other" charset, cached when its init hook succeeds. */
    method GetOtherCharset(name: string, b: Backend) returns (result: Option<Charset>)
      requires Valid()
      modifies this
      ensures Valid()
      ensures (State(), result) == OtherStep(old(State()), name, b)
    {
      OtherStepOutcome(State(), name, b);
      result := None;
      var fc := FindOtherCharset(name);
      if fc.Some? {
        var c := Charset(nextId, OtherCharsets[fc.value], TOther, '\0', OtherData(fc.value));
        if b.initOther(fc.value) {
          nextId := nextId + 1;
          CacheCharset(c);
          result := Some(c);
        }
      }
    }

    /**
     * addFontencCharset: classify a ".enc" encoding by its row size and put
     * it in the first empty slot, unless that slot is the terminator.
     */
    method AddFontencCharset(name: string, f: FontEnc, b: Backend) returns (result: int)
      requires Valid()
      modifies catalog
      ensures Valid()
      ensures (catalog[..], result) == AddFontencStep(old(catalog[..]), name, f, b)
    {
      AddFontencOutcome(catalog[..], name, f, b);
      var cSize := b.typeOfFontenc(f);
      var cType;
      if cSize <= 94 {
        cType := T94;
      } else if cSize <= 96 {
        cType := T96;
      } else if cSize <= 128 {
        cType := T128;
      } else {
        return 0;
      }
      var k := 0;
      while catalog[k].name.Some?
        invariant 0 <= k <= FirstEmptyFrom(catalog[..], 0) < catalog.Length
        invariant FirstEmptyFrom(catalog[..], k) == FirstEmptyFrom(catalog[..], 0)
        decreases catalog.Length - k
      {
        k := k + 1;
      }
      result := 0;
      if k < catalog.Length - 1 {
        result := 1;
        catalog[k] := catalog[k].(name := Some(name), xlfd := name, ctype := cType, shift := b.shiftOfFontenc(f));
      }
    }

    /** getCharset: the cache, then the catalog, then the placeholder for the type. */
    method GetCharset(final: char, t: CharsetType, b: Backend) returns (c: Charset)
      requires Valid()
      modifies this, catalog
      ensures Valid()
      ensures (State(), c) == GetCharsetSpec(old(State()), final, t, b)
    {
      var cached := GetCachedCharset(final, t, None);
      if cached.Some? {
        return cached.value;
      }
      var built := GetFontencCharset(final, t, None, b);
      if built.Some? {
        return built.value;
      }
      return UnknownCharset(t);
    }

    /**
     * getCharsetByName: the cache, the catalog, the "other" charsets, then a
     * ".enc" file added to the catalog, then Unknown (94).
     */
    method GetCharsetByName(name: Option<string>, b: Backend) returns (c: Charset)
      requires Valid()
      modifies this, catalog
      ensures Valid()
      ensures (State(), c) == GetCharsetByNameSpec(old(State()), name, b)
    {
      if name.None? {
        return UnknownCharset(T94);
      }
      var cached := GetCachedCharset('\0', TFailed, name);
      if cached.Some? {
        return cached.value;
      }
      var built := GetFontencCharset('\0', TFailed, name, b);
      if built.Some? {
        return built.value;
      }
      var other := GetOtherCharset(name.value, b);
      if other.Some? {
        return other.value;
      }
      var f := b.lookupOneFontenc(name.value);
      if f.Some? {
        var added := AddFontencCharset(name.value, f.value, b);
        if added != 0 {
          var retry := GetFontencCharset('\0', TFailed, name, b);
          if retry.Some? {
            return retry.value;
          }
        }
      }
      return UnknownCharset(T94);
    }
  }
}
