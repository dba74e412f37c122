# luit charset resolution and recoding, in Dafny

A model of the two files of luit that decide how a terminal's locale maps to
ISO/IEC 2022 graphic sets (`charset.c`) and how an 8-bit encoding is turned
into Unicode through iconv (`luitconv.c`). The model covers these parts:

- **Names.** `lcStrCmp` and `compare1` compare charset names, ignoring ASCII
  case, white space, `-`, `_` and `/`.
- **Charset records and codes.** Each record has a recode and a reverse
  function. `FontencCharsetReverse` range-checks reversed codes.
- **The registry.** This is the static `fontencCharsets` catalog, written in
  place as slots are built, fail or are added, plus the `cachedCharsets`
  list. Its search order runs: cache, catalog, "other" charsets, ".enc" files,
  and finally the Unknown placeholders.
- **The locale side.** This covers the `localeCharsets` table,
  `findLocaleCharset` and `matchLocaleCharset` (with its "@euro" stripping and
  its eight prefix rewrites), `getLocaleState`, and the composite-charset
  lookups.
- **The iconv backend.** This covers the UTF-8 decoder `ConvToUTF32`, the
  256-entry tables built per encoding, the alias retry, the list
  `all_conversions`, and code mapping through it.

Modules:

| module | file | contents |
|---|---|---|
| `Wrappers` | wrappers.dfy | `Option` |
| `Names` | names.dfy | `lcStrCmp`, `compare1`, `strcasecmp` |
| `Utf8` | utf8.dfy | `ConvToUTF32` and the decoding function it is proved against. It also holds `Encode`, an RFC 2279 encoder used only as a reference for round trips; luit has no encoder. |
| `LuitConv` | luitconv.dfy | classes `Conversion` (a table, filled in place) and `ConversionList` (`all_conversions`) |
| `CharsetTypes` | charset_types.dfy | set types, catalog slots, the compiled-in catalog, charset records, the placeholders, recode and reverse |
| `CharsetSpec` | charset_spec.dfy | the registry's state and every registry operation as a function on it, with the lemmas about them |
| `CharsetRegistry` | charset_registry.dfy | class `Registry`: the catalog as an array and the cache as a sequence. Each method is proved to perform the `CharsetSpec` step it models. |
| `Locale` | locale.dfy | the locale table, the read-only searches, `matchLocaleCharset` |
| `LocaleState` | locale_state.dfy | `getLocaleState` over a `Registry` |

Pointers are modelled as identities:

- A charset record carries an `id`. It is 0 for the four static placeholders and a fresh positive number for each allocated record.
- A catalog slot is its index.
- A conversion is a class instance.

The code outside these files is passed in as functions that the model never interprets:

- the X font-encoding library: `LookupMapping`, `LookupReverse`, `MapCodeValue`, `lookupOneFontenc`, `typeOfFontenc`, `shiftOfFontenc`, `luitGetFontEnc`;
- the "other" converters' hooks;
- `resolveLocale`;
- `iconv_open` and `iconv`, as the UTF-8 output of each single byte.

## Model

| member | source | states |
|---|---|---|
| Names.LcStrCmp | charset.c:150-173 | Returns only 0 or 1. Returns 0 exactly when both names match after skipping white space, `-`, `_` and `/` and folding ASCII case. |
| Names.LcMatchMeaning | charset.c:150-173 | The comparison loop succeeds exactly when the two names, with the ignorable characters deleted and lower-cased, are equal. |
| Names.LcMatchIsEquivalence | charset.c:154-173 | Name matching is reflexive, symmetric and transitive. |
| Names.IsoNamesExample | charset.c:154-173 | "ISO-8859-1" matches "iso8859_1" but not "ISO-8859-2". |
| Names.Compare1 | charset.c:175-195 | Computes the comparison loop cut off after n steps, each skip or match using one step. |
| Names.Compare1Bounds | charset.c:175-195 | A zero budget always gives 0. Matching names give 0 for every budget. With a budget covering both names, compare1 agrees with lcStrCmp. |
| Utf8.ClassifyLead | luitconv.c:80-98 | The length a leading byte announces (1 to 6, or 0 for 10xxxxxx, 0xFE, 0xFF) and its payload bits. |
| Utf8.ConvToUTF32 | luitconv.c:69-135 | Returns at most 6. Length and scalar agree with `Decode`: 0 when the announced length exceeds the limit or a continuation byte is not 10xxxxxx; otherwise the payload followed by 6 bits per continuation byte. |
| Utf8.Decode | luitconv.c:69-135 | A nonzero length is the leading byte's announced length and is within both the limit and the source. |
| Utf8.DecodeEncode | luitconv.c:119-127 | Decoding the RFC 2279 encoding of any v up to 0x7FFFFFFF returns its length and v. |
| Utf8.SingleByteIsItself | luitconv.c:80-83 | A one-byte result is the byte itself. |
| Utf8.CopyrightSignExample | luitconv.c:100-127 | C2 A9 decodes to 0xA9 with length 2. C2 with limit 1, or followed by NUL, gives 0. |
| Utf8.DecodeReadsWithinLimit | luitconv.c:100-117 | Two sources that agree on their first max(1, limit) bytes decode alike, so no byte past the limit is read. |
| LuitConv.TakeUntilNul | luitconv.c:158-160 | The copy is the prefix of the output before its first NUL. |
| LuitConv.TableEntryFallbacks | luitconv.c:156-174 | A failed conversion gives U+FFFD. An empty output also gives U+FFFD, because length 1 exceeds limit 0. |
| LuitConv.TableEntryOfEncoding | luitconv.c:156-174 | A byte that converts to the UTF-8 encoding of v is stored with scalar v and that encoding's size. |
| LuitConv.Conversion.InitializeTable | luitconv.c:137-177 | Sets all 256 entries. Each entry is what that byte's conversion determines. |
| LuitConv.FindEncodingAlias | luitconv.c:197-236 | None exactly when no alias name equals the name ignoring case. Otherwise the iconv name of the first such alias. |
| LuitConv.AliasExamples | luitconv.c:203-211 | "koi8-e" has the alias "ISO-IR-111"; "UTF-8" has none. |
| LuitConv.Open | luitconv.c:253-262 | iconv is opened under the name. Only if that fails and an alias exists is it opened once more, under the alias. The result is kept under the name that opened. |
| LuitConv.OpenDirect | luitconv.c:253-255 | An encoding iconv opens directly is kept under its own name. |
| LuitConv.ConversionList.LookupMapping | luitconv.c:238-283 | As written, a name already listed (ignoring case) builds nothing and returns NULL. A successful open prepends exactly one conversion and returns its mapping. A failed open changes nothing. |
| LuitConv.ConversionList.LookupMappingCorrected | luitconv.c:238-283 | As above, except that a listed name returns that conversion's mapping. |
| LuitConv.ConversionList.LookupTwice | luitconv.c:247-252 | As written, a second lookup of a just-opened name returns NULL. |
| LuitConv.ConversionList.LookupTwiceCorrected | luitconv.c:247-252 | Corrected, both lookups return the same mapping. |
| LuitConv.ConversionList.LookupReverse | luitconv.c:285-300 | Returns the reverse record of the listed conversion owning the mapping, or NULL. |
| LuitConv.ConversionList.MapCodeValue | luitconv.c:302-323 | A code below 256 under a listed mapping becomes its table's scalar, which is the decoded conversion of that byte. Any other code is returned unchanged. |
| LuitConv.RemoveFirstDistinct | luitconv.c:330-357 | Unlinking one element of a list without repetitions removes exactly it and keeps the rest in order. |
| LuitConv.ConversionList.DestroyReverse | luitconv.c:330-357 | Unlinks the conversion owning the reverse record, keeping the list valid and the others in order. Changes nothing when no conversion owns it. |
| CharsetTypes.CpSize | charset.c:283-301 | 8-bit codes for 94-, 96- and 128-sets. 16-bit codes for 94x94, 96x96 and 94x192 sets. |
| CharsetTypes.CompiledCatalog | charset.c:60-128 | The catalog has 54 slots and is well formed: 49 named slots, then 5 empty ones, the last being the terminator. |
| CharsetTypes.CompiledSlots | charset.c:60-128 | Every named slot of the compiled-in catalog has an ISO 2022 set type. |
| CharsetTypes.UnknownCharset | charset.c:458-479 | A placeholder has id 0 and no data. It keeps the type for 94, 96, 94x94 and 96x96 sets; any other type gives Unknown (94). |
| CharsetTypes.UnknownIsInert | charset.c:31-41 | A placeholder recodes every code to itself and reverses every code to -1. |
| CharsetTypes.FontencRecodeShifts | charset.c:197-211 | A catalog-built record recodes through its mapping after adding the shift. |
| CharsetTypes.FontencReverseMeaning | charset.c:213-257 | Returns -1 or n - shift. Returns n - shift exactly when n is nonzero, at least the shift, and a legal code for the type: one GL byte (94, 96), below 0x80 (128), two GL bytes (94x94, 96x96), or a GL high byte and a low byte GL in its low 7 bits (94x192). |
| CharsetTypes.FontencReverseRejects | charset.c:222-224 | A reverse result of 0 or below the shift gives -1. |
| CharsetSpec.CachedLookup | charset.c:261-272 | The first cached record, in cache order (most recent first), that is not failed and matches on type and final byte or on name. None exactly when no record matches. |
| CharsetSpec.CatalogMatch | charset.c:343-353 | The first slot before the first empty one that is not failed and matches on type and final byte or on name. None exactly when no slot before the first empty one matches. |
| CharsetSpec.FontencStepOutcome | charset.c:337-387 | The state stays valid and slot names never change. A record is built exactly when a slot matches and both its mapping and its reverse lookup succeed. A failed lookup marks only that slot failed and caches nothing. A success stores the mapping and reverse in that slot and changes no other slot. It prepends exactly one record, with the next free id, the slot's name, type and final byte, and data naming the slot, its shift, the mapping and the reverse; the record matches the request. No matching slot changes nothing. |
| CharsetSpec.FailureIsSticky | charset.c:304-387 | A failed slot stays failed, is never found by a scan, and is never overwritten by an addition. |
| CharsetSpec.OtherStepOutcome | charset.c:389-456 | An "other" charset is cached exactly when one matches the name and its init hook succeeds. The new record has the next free id, the first matching plugin's name, type "other" and that plugin as its data. Otherwise nothing changes. |
| CharsetSpec.BuiltRecordRecodes | charset.c:362-377 | A record built from a catalog slot recodes through the mapping stored in that slot, after adding the slot's shift. |
| CharsetSpec.AddFontencOutcome | charset.c:304-335 | Sizes up to 94, 96 and 128 give the 94, 96 and 128 types; larger sizes give 0. The first empty slot is filled only when it is not the terminator. The result is 1 exactly when a slot was filled, and the rest of the catalog is unchanged. |
| CharsetSpec.RetryFindsAddedSlot | charset.c:526-531 | After a successful addition, the retried catalog scan finds a slot no later than the one filled. |
| CharsetSpec.GetCharsetResult | charset.c:481-496 | Never NULL: either a cached record matching the type and final byte, or the placeholder for the type, which has id 0. |
| CharsetSpec.GetCharsetAgain | charset.c:481-496 | A record getCharset built is returned again by a later call with the same type and final byte, without building anything. |
| CharsetSpec.GetCharsetByNameResult | charset.c:498-534 | Never NULL: either a cached record whose name matches, or Unknown (94). |
| CharsetSpec.GetCharsetByNameAgain | charset.c:498-534 | A record getCharsetByName found is found again by the same name without any change. |
| CharsetSpec.GetCharsetByNameCache | charset.c:498-534 | Caches at most one record, the one returned, at the front. |
| CharsetSpec.NullNameIsUnknown | charset.c:503-504 | A NULL name gives Unknown (94) and changes nothing. |
| CharsetRegistry.FindOtherCharset | charset.c:389-400 | The index of the first "other" charset whose name matches. |
| CharsetRegistry.IsOther | charset.c:402-412 | True exactly for "other" charsets, Big5 and JOHAB. |
| CharsetRegistry.RecordMatches | charset.c:265-269 | getCachedCharset's test on one record. |
| CharsetRegistry.SlotHit | charset.c:344-353 | getFontencCharset's test on one slot. |
| CharsetRegistry.Registry.constructor | charset.c:60-128 | Starts from the compiled-in catalog and an empty cache. |
| CharsetRegistry.Registry.GetCachedCharset | charset.c:261-272 | Returns the CachedLookup result. |
| CharsetRegistry.Registry.CacheCharset | charset.c:274-280 | Prepends one record to the cache. |
| CharsetRegistry.Registry.FindFontencSlot | charset.c:343-353 | Returns where the catalog scan stops: the first live matching slot, or the first empty one. |
| CharsetRegistry.Registry.GetFontencCharset | charset.c:337-387 | Performs FontencStep on the registry, writing the catalog array in place, and keeps it valid. |
| CharsetRegistry.Registry.GetOtherCharset | charset.c:414-456 | Performs OtherStep. |
| CharsetRegistry.Registry.AddFontencCharset | charset.c:304-335 | Performs AddFontencStep on the catalog array in place. |
| CharsetRegistry.Registry.GetCharset | charset.c:481-496 | Performs GetCharsetSpec. |
| CharsetRegistry.Registry.GetCharsetByName | charset.c:498-534 | Performs GetCharsetByNameSpec. |
| Locale.LocaleIndexMeaning | charset.c:704-716 | The exact search finds the first entry whose name matches, and fails only when none does. |
| Locale.LocaleByCharsetMeaning | charset.c:651-670 | findLocaleByCharset finds the first entry whose G3, G2 or G1 matches (if it has a G1 or G2), and fails only when none does. |
| Locale.GetFontencByName | charset.c:867-898 | When a slot before the first empty one is named `name` (by name, or by XLFD unless it is a ":GL" half), the result is the first such slot. Only when none is, and `name` has no ':', is the first slot named `name` + ":GR" taken. None exactly when neither exists. |
| Locale.XlfdNameFindsAscii | charset.c:867-898 | "iso8859-1" finds slot 1, "ASCII", whose XLFD it is, and not the later slot named "ISO 8859-1". |
| Locale.GetCompositeCharset | charset.c:904-919 | The name of the first locale entry that designates, in G1, G2 or G3, the catalog charset getFontencByName finds. None exactly when no slot is found or no entry designates it. |
| Locale.SelectPart | charset.c:921-940 | Nothing for g above 3. Otherwise one of G0-G3. |
| Locale.GetCompositePart | charset.c:946-968 | The first slot before the first empty one whose name matches part Gg of the locale entry named `composite`. None exactly when no entry has that name, Gg is absent (or g is above 3), or no slot matches. |
| Locale.ClosestLocaleCharset | charset.c:672-689 | Nothing without an encoding. Otherwise the first locale entry that designates the catalog charset getFontencByName finds for the encoding's name, or the encoding's own name when no slot is found. None exactly when no entry designates that name. |
| Locale.FindLocaleByCharset | charset.c:651-670 | The first locale entry with a G1 or G2 whose G3, G2 or G1 matches the charset. None exactly when no entry does. |
| Locale.FindLocaleCharset | charset.c:704-748 | An exact name match wins. Failing that, the closest entry for the encoding the font-encoding layer returns. Failing that, the faked 8-bit entry, exactly when the encoding can be faked (at most 256 single-byte codes). Otherwise None. |
| Locale.StripEuroMeaning | charset.c:763-768 | "@euro" is cut exactly when the text from the last '@' is "@euro". |
| Locale.TryPrefixes | charset.c:774-803 | The rewrite loop performs RewriteFrom over the eight rules in order. |
| Locale.RewriteFromFirstHit | charset.c:774-803 | A rewrite result is the hit of the first rule that hits. |
| Locale.RewriteFromMiss | charset.c:774-803 | The loop fails exactly when no rule hits. |
| Locale.MatchLocaleCharset | charset.c:750-808 | Performs MatchLocale: truncate, strip "@euro", exact search, then the rewrites. |
| Locale.MatchLocaleOutcome | charset.c:750-808 | An empty name matches nothing. An exact hit wins. A source name of at least MAX_KEYWORD_LENGTH is never rewritten. |
| Locale.TableLayout | charset.c:536-588 | The locale table has 44 entries in source order: 33 8-bit, 6 EUC/Big5, 5 "other". |
| Locale.EucJPEntry | charset.c:575 | "eucJP" is the 35th entry: GL 0, GR 1, G0 ASCII, G1 JIS X 0208, G2 JIS X 0201:GR, G3 JIS X 0212. |
| Locale.MatchEucJP | charset.c:750-808 | matchLocaleCharset("eucJP") gives that entry. |
| Locale.IbmCodePageIsNotAName | charset.c:536-588 | "IBM-CP866" names no entry. |
| Locale.CodePage866Entry | charset.c:571 | "CP 866" finds the CP866 entry. |
| Locale.MatchIbmCodePage | charset.c:750-808 | "IBM-CP866", unknown to the font-encoding layer, is rewritten by the third rule to "CP 866" and gives the CP866 entry. |
| LocaleState.CharsetOfLocale | charset.c:824-839 | A non-empty charset is used as given. With locales ignored, the locale is used. Otherwise the name is the text after the last '.' of the resolved locale, or all of it. Nothing when the locale does not resolve. |
| LocaleState.GetLocaleState | charset.c:810-860 | Performs LocaleStateSpec on the registry and keeps it valid. |
| LocaleState.DesignatePartOutcome | charset.c:843-846 | One designation keeps the registry valid and every cached record. It gives Unknown (94) or a cached record whose name matches the part's. |
| LocaleState.DesignateOutcome | charset.c:841-851 | GL and GR come from the entry, and each of G0-G3 is designated by its name. "other" is designated exactly when the entry has one. |
| LocaleState.LocaleStateOutcome | charset.c:810-860 | Returns 0 or -1. -1 exactly when the locale does not resolve or nothing matches, and then nothing changes. 0 comes with the matched entry's GL, GR and designations. |
| LocaleState.EucJPLocaleState | charset.c:810-860 | For "eucJP": result 0, GL 0, GR 1, G0-G3 designated for ASCII, JIS X 0208, JIS X 0201:GR and JIS X 0212, and no "other". |

## Left out

- trace.c and every `TRACE` call: diagnostic output only.
- `reportCharsets`: a printed listing.
- `charset_leaks`, `destroyCharset`, `destroyFontencCharsetPtr` and `isUnknownCharsetPtr`: memory release at exit.
- Allocation failure (`malloc`, `TypeCalloc`, `strmalloc` returning NULL) is not modelled; every allocation succeeds.
- The code behind the oracles is not part of this model: the X font-encoding library, the "other" converters (`init_gbk` … `stack_gb18030`), `resolveLocale`, `luitGetFontEnc`/`luitFreeFontEnc`, and iconv. The `free` of the resolved locale name is also left out.
- iconv's shift state is not modelled. Each byte's conversion is an independent oracle result.
- iconv's output must fit the 80-byte buffer with room for a NUL (`ValidOutput`); longer output is not modelled.
- Strings are modelled without embedded NUL characters. `tolower` and `isspace` are the ASCII ones.
- The compile-time `USE_ICONV` branches are taken as enabled. luitconv.h is not part of this model, and neither is its one-argument `LookupMapping` macro. The charset side uses its own abstract mapping backend.
- `MAX_KEYWORD_LENGTH` and `ignore_locale` are parameters.
- `luitRecode` and `luitReverse` (luitconv.c:179-191) are the identity hooks luitLookupMapping installs on a mapping (luitconv.c:272-273). The model's mapping handle carries no hooks, so they are not modelled.
- CharsetRegistry.Registry.GetFontencCharset: a cached record copies the slot's index, shift, mapping and reverse instead of pointing into the slot, so aliasing between the record and the slot is not modelled. The slot's mapping fields are written only by the build that creates the record.
- Locale.FindLocaleCharset: the faked entry is returned as a value. The model does not capture that the C code reuses one static record, overwritten by the next fake.
- The charset type passed by getCharsetByName is 0, which luit's charset.h (not part of this model) defines as T_FAILED. It is modelled as `TFailed`, so the type-and-final-byte test never succeeds on that path.

## Findings

| source | as written | input that shows it | evidently intended | confidence | as-written member | corrected member |
|---|---|---|---|---|---|---|
| luitconv.c:247-252 | On a cache hit, the loop breaks with `latest` set, but `result` is assigned only in the branch that opens a new conversion. A name already in `all_conversions` therefore returns NULL. | `luitLookupMapping("ISO-8859-2")` twice, where iconv opens ISO-8859-2: the first call returns a mapping and the second returns NULL. | The cache hit returns `&latest->mapping`. | not executed | LuitConv.ConversionList.LookupTwice | LuitConv.ConversionList.LookupTwiceCorrected |
