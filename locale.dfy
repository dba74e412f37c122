/**
 * The locale side of charset.c: the localeCharsets table, which gives each
 * locale encoding its GL/GR slots and G0-G3 (or "other") charset names, and
 * the read-only searches over it and over the fontencCharsets catalog.
 * The catalog is passed in as the registry holds it at the time of the call.
 */
module Locale {
  import opened Wrappers
  import opened Names
  import opened CharsetTypes
  import opened CharsetSpec

  /** A LocaleCharsetRec: the slots GL and GR invoke and the names of G0-G3, or an "other" encoding. */
  datatype LocaleEntry = LocaleEntry(
    name: string, gl: nat, gr: nat,
    g0: Option<string>, g1: Option<string>, g2: Option<string>, g3: Option<string>,
    other: Option<string>)

  /** An 8-bit locale encoding: ASCII in G0 for GL, the named 96- or 128-set in G2 for GR. */
  function EightBit(rows: seq<(string, string)>): (g: seq<LocaleEntry>)
    ensures |g| == |rows|
    ensures forall i :: 0 <= i < |rows| ==>
      g[i] == LocaleEntry(rows[i].0, 0, 2, Some("ASCII"), None, Some(rows[i].1), None, None)
  {
    seq(|rows|, i requires 0 <= i < |rows| => LocaleEntry(rows[i].0, 0, 2, Some("ASCII"), None, Some(rows[i].1), None, None))
  }

  /** A locale encoding handled by an "other" converter: no G0-G3 at all. */
  function Plugins(rows: seq<(string, string)>): (g: seq<LocaleEntry>)
    ensures |g| == |rows|
    ensures forall i :: 0 <= i < |rows| ==>
      g[i] == LocaleEntry(rows[i].0, 0, 1, None, None, None, None, Some(rows[i].1))
  {
    seq(|rows|, i requires 0 <= i < |rows| => LocaleEntry(rows[i].0, 0, 1, None, None, None, None, Some(rows[i].1)))
  }

  const Locales8Bit: seq<(string, string)> := [
    ("C", "ISO 8859-1"), ("POSIX", "ISO 8859-1"), ("US-ASCII", "ISO 8859-1"),
    ("ISO8859-1", "ISO 8859-1"), ("ISO8859-2", "ISO 8859-2"), ("ISO8859-3", "ISO 8859-3"),
    ("ISO8859-4", "ISO 8859-4"), ("ISO8859-5", "ISO 8859-5"), ("ISO8859-6", "ISO 8859-6"),
    ("ISO8859-7", "ISO 8859-7"), ("ISO8859-8", "ISO 8859-8"), ("ISO8859-9", "ISO 8859-9"),
    ("ISO8859-10", "ISO 8859-10"), ("ISO8859-11", "ISO 8859-11"), ("TIS620", "ISO 8859-11"),
    ("ISO8859-13", "ISO 8859-13"), ("ISO8859-14", "ISO 8859-14"), ("ISO8859-15", "ISO 8859-15"),
    ("ISO8859-16", "ISO 8859-16"),
    ("KOI8-E", "KOI8-E"), ("KOI8-R", "KOI8-R"), ("KOI8-U", "KOI8-U"), ("KOI8-RU", "KOI8-RU"),
    ("CP1250", "CP 1250"), ("CP1251", "CP 1251"), ("CP1252", "CP 1252"), ("CP1255", "CP 1255"),
    ("CP437", "CP 437"), ("CP850", "CP 850"), ("CP852", "CP 852"), ("CP865", "CP 865"),
    ("CP866", "CP 866"), ("TCVN", "TCVN")]

  const LocalesEuc: seq<LocaleEntry> := [
    LocaleEntry("GB2312", 0, 1, Some("ASCII"), Some("GB 2312"), None, None, None),
    LocaleEntry("eucJP", 0, 1, Some("ASCII"), Some("JIS X 0208"), Some("JIS X 0201:GR"), Some("JIS X 0212"), None),
    LocaleEntry("eucKR", 0, 1, Some("ASCII"), Some("KSC 5601"), None, None, None),
    LocaleEntry("eucCN", 0, 1, Some("ASCII"), Some("GB 2312"), None, None, None),
    LocaleEntry("eucTW", 0, 1, Some("ASCII"), Some("CNS11643-1"), Some("CNS11643-2"), Some("CNS11643-3"), None),
    LocaleEntry("Big5", 0, 1, Some("ASCII"), Some("Big 5"), None, None, None)]

  const LocalesOther: seq<(string, string)> := [
    ("gbk", "GBK"), ("UTF-8", "UTF-8"), ("SJIS", "SJIS"), ("Big5-HKSCS", "BIG5-HKSCS"), ("gb18030", "GB18030")]

  /** localeCharsets, without its NULL terminator. */
  const LocaleCharsets: seq<LocaleEntry> := EightBit(Locales8Bit) + LocalesEuc + Plugins(LocalesOther)

  // ---------------------------------------------------------------------
  // Searches of the locale table

  /** The first entry of `table` from k on whose name matches `charset`. */
  function LocaleIndexFrom(table: seq<LocaleEntry>, charset: string, k: nat): (r: Option<nat>)
    requires k <= |table|
    ensures r.Some? ==> k <= r.value < |table|
    decreases |table| - k
  {
    if k == |table| then None
    else if LcMatch(table[k].name, charset) then Some(k)
    else LocaleIndexFrom(table, charset, k + 1)
  }

  /** The exact-name search finds the first entry whose name matches, and fails only when none does. */
  lemma {:induction false} LocaleIndexMeaning(table: seq<LocaleEntry>, charset: string, k: nat)
    requires k <= |table|
    ensures LocaleIndexFrom(table, charset, k).Some? ==>
      LcMatch(table[LocaleIndexFrom(table, charset, k).value].name, charset)
    ensures LocaleIndexFrom(table, charset, k).Some? ==>
      forall i :: k <= i < LocaleIndexFrom(table, charset, k).value ==> !LcMatch(table[i].name, charset)
    ensures LocaleIndexFrom(table, charset, k).None? <==>
      forall i :: k <= i < |table| ==> !LcMatch(table[i].name, charset)
    decreases |table| - k
  {
    if k < |table| && !LcMatch(table[k].name, charset) {
      LocaleIndexMeaning(table, charset, k + 1);
    }
  }

  /** The exact-name search of findLocaleCharset. */
  function LocaleIndex(charset: string): (r: Option<nat>)
    ensures r.Some? ==> r.value < |LocaleCharsets|
  {
    LocaleIndexFrom(LocaleCharsets, charset, 0)
  }

  /** findLocaleByCharset's test: an entry with a G1 or G2 naming `charset` in G3, G2 or G1. */
  predicate UsesCharset(e: LocaleEntry, charset: string) {
    (e.g1.Some? || e.g2.Some?) &&
    ((e.g3.Some? && LcMatch(charset, e.g3.value)) ||
     (e.g2.Some? && LcMatch(charset, e.g2.value)) ||
     (e.g1.Some? && LcMatch(charset, e.g1.value)))
  }

  /** The first entry of `table` from k on that designates `charset`. */
  function LocaleByCharsetFrom(table: seq<LocaleEntry>, charset: string, k: nat): (r: Option<nat>)
    requires k <= |table|
    ensures r.Some? ==> k <= r.value < |table|
    decreases |table| - k
  {
    if k == |table| then None
    else if UsesCharset(table[k], charset) then Some(k)
    else LocaleByCharsetFrom(table, charset, k + 1)
  }

  /** findLocaleByCharset finds the first entry designating the charset, and fails only when none does. */
  lemma {:induction false} LocaleByCharsetMeaning(table: seq<LocaleEntry>, charset: string, k: nat)
    requires k <= |table|
    ensures LocaleByCharsetFrom(table, charset, k).Some? ==>
      UsesCharset(table[LocaleByCharsetFrom(table, charset, k).value], charset)
    ensures LocaleByCharsetFrom(table, charset, k).Some? ==>
      forall i :: k <= i < LocaleByCharsetFrom(table, charset, k).value ==> !UsesCharset(table[i], charset)
    ensures LocaleByCharsetFrom(table, charset, k).None? <==>
      forall i :: k <= i < |table| ==> !UsesCharset(table[i], charset)
    decreases |table| - k
  {
    if k < |table| && !UsesCharset(table[k], charset) {
      LocaleByCharsetMeaning(table, charset, k + 1);
    }
  }

  /** findLocaleByCharset: the first locale entry that designates `charset` in G1, G2 or G3. */
  function FindLocaleByCharset(charset: string): (r: Option<nat>)
    ensures r.Some? ==> (r.value < |LocaleCharsets| && UsesCharset(LocaleCharsets[r.value], charset) &&
                         forall i :: 0 <= i < r.value ==> !UsesCharset(LocaleCharsets[i], charset))
    ensures r.None? <==> forall i :: 0 <= i < |LocaleCharsets| ==> !UsesCharset(LocaleCharsets[i], charset)
  {
    LocaleByCharsetMeaning(LocaleCharsets, charset, 0);
    LocaleByCharsetFrom(LocaleCharsets, charset, 0)
  }

  // ---------------------------------------------------------------------
  // Searches of the fontencCharsets catalog

  /** strstr(s, pat) != NULL. */
  predicate HasInfix(s: string, pat: string)
    decreases |s|
  {
    |s| >= |pat| && (s[..|pat|] == pat || HasInfix(s[1..], pat))
  }

  /**
   * getFontencByName's test on a slot: its name matches, or its XLFD name
   * matches and the slot is not a ":GL" half (whose XLFD it shares with
   * the ":GR" half).
   */
  predicate ByNameMatches(e: FontencEntry, name: string) {
    e.name.Some? &&
    (LcMatch(name, e.name.value) || (!HasInfix(e.name.value, ":GL") && LcMatch(name, e.xlfd)))
  }

  /** The first slot from i on, before the first empty one, that ByNameMatches. */
  function ByNameFrom(cat: seq<FontencEntry>, name: string, i: nat): (r: Option<nat>)
    requires i <= |cat|
    ensures r.Some? ==> (i <= r.value < FirstEmptyFrom(cat, i) && ByNameMatches(cat[r.value], name) &&
      forall k :: i <= k < r.value ==> !ByNameMatches(cat[k], name))
    ensures r.None? <==> forall k :: i <= k < FirstEmptyFrom(cat, i) ==> !ByNameMatches(cat[k], name)
    decreases |cat| - i
  {
    if i == |cat| || cat[i].name.None? then None
    else if ByNameMatches(cat[i], name) then Some(i)
    else ByNameFrom(cat, name, i + 1)
  }

  /** Some slot before the first empty one is named `name`, by name or XLFD. */
  predicate HasByName(cat: seq<FontencEntry>, name: string) {
    exists k :: 0 <= k < FirstEmptyFrom(cat, 0) && ByNameMatches(cat[k], name)
  }

  /** Slot k is the first slot named `name`, by name or XLFD, before the first empty one. */
  predicate FirstByName(cat: seq<FontencEntry>, name: string, k: nat) {
    k < FirstEmptyFrom(cat, 0) && ByNameMatches(cat[k], name) &&
    forall i :: 0 <= i < k ==> !ByNameMatches(cat[i], name)
  }

  /**
   * getFontencByName: the slot named `name` (by name or XLFD); failing
   * that, when `name` has no ':', the slot named `name` + ":GR".
   */
  function GetFontencByName(cat: seq<FontencEntry>, name: string): (r: Option<nat>)
    ensures HasByName(cat, name) ==> r.Some? && FirstByName(cat, name, r.value)
    ensures !HasByName(cat, name) ==> (r.Some? <==> ':' !in name && HasByName(cat, name + ":GR"))
    ensures !HasByName(cat, name) && r.Some? ==> FirstByName(cat, name + ":GR", r.value)
  {
    match ByNameFrom(cat, name, 0)
    case Some(k) => Some(k)
    case None => if ':' in name then None else ByNameFrom(cat, name + ":GR", 0)
  }

  /** The first slot from i on, before the first empty one, whose name matches `part`. */
  function PartFrom(cat: seq<FontencEntry>, part: string, i: nat): (r: Option<nat>)
    requires i <= |cat|
    ensures r.Some? ==> (i <= r.value < FirstEmptyFrom(cat, i) && LcMatch(part, cat[r.value].name.value) &&
      forall k :: i <= k < r.value ==> !LcMatch(part, cat[k].name.value))
    ensures r.None? <==> forall k :: i <= k < FirstEmptyFrom(cat, i) ==> !LcMatch(part, cat[k].name.value)
    decreases |cat| - i
  {
    if i == |cat| || cat[i].name.None? then None
    else if LcMatch(part, cat[i].name.value) then Some(i)
    else PartFrom(cat, part, i + 1)
  }

  /**
   * A name that is some slot's XLFD finds the first such slot, even when a
   * later slot bears that name itself: "iso8859-1" is the XLFD of "ASCII"
   * and the name of "ISO 8859-1", and finds "ASCII".
   */
  lemma XlfdNameFindsAscii()
    ensures GetFontencByName(FontencCharsets, "iso8859-1") == Some(1)
    ensures FontencCharsets[1].name == Some("ASCII")
  {
    FirstTwoSlots();
    SlotsNamedIso8859One();
    assert FirstByName(FontencCharsets, "iso8859-1", 1);
  }

  /** Slot 0 is not named "iso8859-1"; slot 1, "ASCII", has it as its XLFD. */
  lemma SlotsNamedIso8859One()
    ensures !ByNameMatches(FontencCharsets[0], "iso8859-1")
    ensures ByNameMatches(FontencCharsets[1], "iso8859-1")
  {
    FirstTwoSlots();
    Iso8859OneNames();
  }

  lemma FirstTwoSlots()
    ensures FontencCharsets[0] == FontencEntry(Some("ISO 646 (1973)"), T94, '@', "iso646.1973-0", 0, None, None)
    ensures FontencCharsets[1] == FontencEntry(Some("ASCII"), T94, 'B', "iso8859-1", 0, None, None)
    ensures FirstEmptyFrom(FontencCharsets, 0) > 1
  {
    assert |Sets94| == 6;
    assert FontencCharsets[0] == Sets94[0] && FontencCharsets[1] == Sets94[1];
    assert FirstEmptyFrom(FontencCharsets, 0) == FirstEmptyFrom(FontencCharsets, 2);
  }

  lemma Iso8859OneNames()
    ensures !LcMatch("iso8859-1", "ISO 646 (1973)") && !LcMatch("iso8859-1", "iso646.1973-0")
    ensures LcMatch("iso8859-1", "iso8859-1") && !HasInfix("ASCII", ":GL")
  {
    LcMatchIsEquivalence("iso8859-1", "iso8859-1", "iso8859-1");
    assert ':' !in "ASCII";
    NoColonNoHalf("ASCII");
  }

  /** A name without ':' is never a ":GL" half. */
  lemma {:induction false} NoColonNoHalf(s: string)
    requires ':' !in s
    ensures !HasInfix(s, ":GL")
    decreases |s|
  {
    if |s| >= 3 {
      assert s[..3][0] == s[0] != ':';
      NoColonNoHalf(s[1..]);
    }
  }

  /**
   * getCompositeCharset: the name of the locale encoding that uses the
   * catalog charset `name` designates in G1, G2 or G3.
   */
  function GetCompositeCharset(cat: seq<FontencEntry>, name: string): (r: Option<string>)
    ensures r.Some? ==> (GetFontencByName(cat, name).Some? &&
      var used := cat[GetFontencByName(cat, name).value].name.value;
      exists j :: 0 <= j < |LocaleCharsets| && LocaleCharsets[j].name == r.value &&
        UsesCharset(LocaleCharsets[j], used) && forall i :: 0 <= i < j ==> !UsesCharset(LocaleCharsets[i], used))
    ensures r.None? <==> (GetFontencByName(cat, name).None? ||
      FindLocaleByCharset(cat[GetFontencByName(cat, name).value].name.value).None?)
  {
    match GetFontencByName(cat, name)
    case None => None
    case Some(k) =>
      match FindLocaleByCharset(cat[k].name.value)
      case None => None
      case Some(j) => Some(LocaleCharsets[j].name)
  }

  /** selectPart: the name an entry designates in Gg; nothing for g above 3. */
  function SelectPart(e: LocaleEntry, g: nat): (r: Option<string>)
    ensures g > 3 ==> r.None?
    ensures r.Some? ==> r == e.g0 || r == e.g1 || r == e.g2 || r == e.g3
  {
    match g
    case 0 => e.g0
    case 1 => e.g1
    case 2 => e.g2
    case 3 => e.g3
    case _ => None
  }

  /**
   * getCompositePart: the catalog slot named by the part Gg of the locale
   * encoding `composite`. The locale search is the one of findLocaleCharset,
   * with the arguments of the comparison swapped, which LcMatch ignores.
   */
  function GetCompositePart(cat: seq<FontencEntry>, composite: string, g: nat): (r: Option<nat>)
    ensures r.Some? ==> (r.value < FirstEmptyFrom(cat, 0) && LocaleIndex(composite).Some? &&
      SelectPart(LocaleCharsets[LocaleIndex(composite).value], g).Some? &&
      var part := SelectPart(LocaleCharsets[LocaleIndex(composite).value], g).value;
      LcMatch(part, cat[r.value].name.value) &&
      forall k :: 0 <= k < r.value ==> !LcMatch(part, cat[k].name.value))
    ensures r.None? <==> (LocaleIndex(composite).None? ||
      SelectPart(LocaleCharsets[LocaleIndex(composite).value], g).None? ||
      var part := SelectPart(LocaleCharsets[LocaleIndex(composite).value], g).value;
      forall k :: 0 <= k < FirstEmptyFrom(cat, 0) ==> !LcMatch(part, cat[k].name.value))
  {
    match LocaleIndex(composite)
    case None => None
    case Some(j) =>
      match SelectPart(LocaleCharsets[j], g)
      case None => None
      case Some(part) => PartFrom(cat, part, 0)
  }

  // ---------------------------------------------------------------------
  // findLocaleCharset

  /** closestLocaleCharset: the locale entry using the encoding's catalog charset, or its own name. */
  function ClosestLocaleCharset(cat: seq<FontencEntry>, enc: Option<FontEnc>): (r: Option<nat>)
    ensures enc.None? ==> r.None?
    ensures enc.Some? ==>
      var slot := GetFontencByName(cat, enc.value.name);
      var used := if slot.Some? then cat[slot.value].name.value else enc.value.name;
      (r.None? <==> forall i :: 0 <= i < |LocaleCharsets| ==> !UsesCharset(LocaleCharsets[i], used)) &&
      (r.Some? ==> r.value < |LocaleCharsets| && UsesCharset(LocaleCharsets[r.value], used) &&
                   forall i :: 0 <= i < r.value ==> !UsesCharset(LocaleCharsets[i], used))
  {
    if enc.None? then None
    else match GetFontencByName(cat, enc.value.name)
      case Some(k) => FindLocaleByCharset(cat[k].name.value)
      case None => FindLocaleByCharset(enc.value.name)
  }

  /** canFakeLocaleCharset: an encoding of at most 256 single-byte codes. */
  predicate CanFakeLocaleCharset(enc: Option<FontEnc>) {
    enc.Some? && enc.value.size <= 256 && enc.value.rowSize == 0
  }

  /** The entry faked for an 8-bit encoding: ASCII for GL, the encoding itself in G2 for GR. */
  function FakeLocaleCharset(charset: string): LocaleEntry {
    LocaleEntry(charset, 0, 2, Some("ASCII"), None, Some(charset), None, None)
  }

  /**
   * findLocaleCharset: the table entry named `charset`; else the entry
   * closest to the encoding the font-encoding layer finds under that name;
   * else a faked 8-bit entry when the encoding allows it.
   */
  function FindLocaleCharset(cat: seq<FontencEntry>, charset: string, getFontEnc: string -> Option<FontEnc>): (r: Option<LocaleEntry>)
    ensures LocaleIndex(charset).Some? ==> r == Some(LocaleCharsets[LocaleIndex(charset).value])
    ensures r.None? <==> (LocaleIndex(charset).None? &&
      ClosestLocaleCharset(cat, getFontEnc(charset)).None? && !CanFakeLocaleCharset(getFontEnc(charset)))
    ensures r.Some? ==> r.value in LocaleCharsets || r.value == FakeLocaleCharset(charset)
    ensures LocaleIndex(charset).None? && ClosestLocaleCharset(cat, getFontEnc(charset)).Some? ==>
      r == Some(LocaleCharsets[ClosestLocaleCharset(cat, getFontEnc(charset)).value])
    ensures LocaleIndex(charset).None? && ClosestLocaleCharset(cat, getFontEnc(charset)).None? ==>
      (r.Some? <==> CanFakeLocaleCharset(getFontEnc(charset))) && (r.Some? ==> r.value == FakeLocaleCharset(charset))
  {
    match LocaleIndex(charset)
    case Some(k) => Some(LocaleCharsets[k])
    case None =>
      var enc := getFontEnc(charset);
      match ClosestLocaleCharset(cat, enc)
      case Some(k) => Some(LocaleCharsets[k])
      case None => if CanFakeLocaleCharset(enc) then Some(FakeLocaleCharset(charset)) else None
  }

  // ---------------------------------------------------------------------
  // matchLocaleCharset

  /** The prefix rewrites, tried in this order: (prefix of the locale's name, replacement). */
  const Prefixes: seq<(string, string)> := [
    ("ISO-", "ISO "), ("DEC ", "DEC-"), ("IBM-CP", "CP "), ("IBM", "CP "),
    ("MICROSOFT-CP", "CP "), ("MICROSOFT", "CP "), ("CP-", "CP "), ("ANSI", "CP ")]

  /** The position of the last occurrence of c in s (strrchr). */
  function LastIndexOf(s: string, c: char): (r: Option<nat>)
    ensures r.Some? ==> r.value < |s| && s[r.value] == c && c !in s[r.value + 1..]
    ensures r.None? <==> c !in s
  {
    if s == [] then None
    else if s[|s| - 1] == c then Some(|s| - 1)
    else
      var r := LastIndexOf(s[..|s| - 1], c);
      assert s == s[..|s| - 1] + [s[|s| - 1]];
      r
  }

  /** Cut the text from the last '@' when that text is exactly "@euro". */
  function StripEuro(source: string): string {
    match LastIndexOf(source, '@')
    case Some(k) => if source[k..] == "@euro" then source[..k] else source
    case None => source
  }

  /** sprintf("%.*s", maxLen, charset): at most maxLen characters. */
  function Truncate(charset: string, maxLen: nat): (r: string)
    ensures |r| <= maxLen && r <= charset
  {
    if |charset| <= maxLen then charset else charset[..maxLen]
  }

  /** Rewrite rule n applies to `source`: longer than the prefix, shorter than maxLen, and starting with it. */
  predicate RuleApplies(source: string, maxLen: nat, n: nat)
    requires n < |Prefixes|
  {
    |source| > |Prefixes[n].0| && |source| < maxLen && Compare1Result(source, Prefixes[n].0, |Prefixes[n].0|) == 0
  }

  /** The name rule n rewrites `source` to. */
  function Rewritten(source: string, n: nat): string
    requires n < |Prefixes| && |source| >= |Prefixes[n].0|
  {
    Prefixes[n].1 + source[|Prefixes[n].0|..]
  }

  /** What rule n alone yields: the entry found under the rewritten name, when the rule applies. */
  function RuleHit(cat: seq<FontencEntry>, source: string, maxLen: nat, fe: string -> Option<FontEnc>, n: nat): Option<LocaleEntry>
    requires n < |Prefixes|
  {
    if RuleApplies(source, maxLen, n) then FindLocaleCharset(cat, Rewritten(source, n), fe) else None
  }

  /** The first hit in `hits` from position n on. */
  function FirstHit(hits: seq<Option<LocaleEntry>>, n: nat): Option<LocaleEntry>
    requires n <= |hits|
    decreases |hits| - n
  {
    if n == |hits| then None
    else if hits[n].Some? then hits[n]
    else FirstHit(hits, n + 1)
  }

  /** What each rewrite rule yields, in rule order. */
  function RuleHits(cat: seq<FontencEntry>, source: string, maxLen: nat, fe: string -> Option<FontEnc>): (h: seq<Option<LocaleEntry>>)
    ensures |h| == |Prefixes|
    ensures forall n :: 0 <= n < |Prefixes| ==> h[n] == RuleHit(cat, source, maxLen, fe, n)
  {
    seq(|Prefixes|, n requires 0 <= n < |Prefixes| => RuleHit(cat, source, maxLen, fe, n))
  }

  /** The prefix loop of matchLocaleCharset from rule n on: the first rule that hits wins. */
  function RewriteFrom(cat: seq<FontencEntry>, source: string, maxLen: nat, fe: string -> Option<FontEnc>, n: nat): Option<LocaleEntry>
    requires n <= |Prefixes|
  {
    FirstHit(RuleHits(cat, source, maxLen, fe), n)
  }

  /** The name matchLocaleCharset looks up: truncated to maxLen, a trailing "@euro" removed. */
  function SourceName(charset: string, maxLen: nat): string {
    StripEuro(Truncate(charset, maxLen))
  }

  /**
   * matchLocaleCharset: nothing for an empty name; otherwise the entry
   * findLocaleCharset gives for the source name, or else the first prefix
   * rewrite of it that findLocaleCharset resolves.
   */
  function MatchLocale(cat: seq<FontencEntry>, charset: string, maxLen: nat, fe: string -> Option<FontEnc>): Option<LocaleEntry> {
    if charset == [] then None
    else
      var source := SourceName(charset, maxLen);
      var p := FindLocaleCharset(cat, source, fe);
      if p.Some? then p else RewriteFrom(cat, source, maxLen, fe, 0)
  }

  /** The loop of matchLocaleCharset over the prefix rewrites, for a source name no exact search resolved. */
  method TryPrefixes(cat: seq<FontencEntry>, source: string, maxLen: nat, fe: string -> Option<FontEnc>)
    returns (p: Option<LocaleEntry>)
    ensures p == RewriteFrom(cat, source, maxLen, fe, 0)
  {
    p := None;
    var have := |source|;
    var n := 0;
    while n < |Prefixes|
      invariant n <= |Prefixes|
      invariant RewriteFrom(cat, source, maxLen, fe, n) == RewriteFrom(cat, source, maxLen, fe, 0)
      invariant p.None?
    {
      var src := Prefixes[n].0;
      if have > |src| && have < maxLen {
        var cmp := Compare1(source, src, |src|);
        if cmp == 0 {
          var target := Prefixes[n].1 + source[|src|..];
          assert target == Rewritten(source, n);
          p := FindLocaleCharset(cat, target, fe);
          assert p == RuleHit(cat, source, maxLen, fe, n);
          if p.Some? {
            break;
          }
        } else {
          assert !RuleApplies(source, maxLen, n);
        }
      } else {
        assert !RuleApplies(source, maxLen, n);
      }
      assert RuleHit(cat, source, maxLen, fe, n).None?;
      n := n + 1;
    }
  }

  /** matchLocaleCharset: truncate, strip "@euro", search exactly, then try the prefix rewrites. */
  method MatchLocaleCharset(cat: seq<FontencEntry>, charset: string, maxLen: nat, fe: string -> Option<FontEnc>)
    returns (p: Option<LocaleEntry>)
    ensures p == MatchLocale(cat, charset, maxLen, fe)
  {
    p := None;
    if charset != [] {
      var source := Truncate(charset, maxLen);
      var euro := LastIndexOf(source, '@');
      if euro.Some? && source[euro.value..] == "@euro" {
        source := source[..euro.value];
      }
      assert source == SourceName(charset, maxLen);
      p := FindLocaleCharset(cat, source, fe);
      if p.None? {
        p := TryPrefixes(cat, source, maxLen, fe);
      }
    }
  }

  // ---------------------------------------------------------------------
  // What matchLocaleCharset guarantees

  /** The "@euro" modifier is removed exactly when the name ends with it. */
  lemma StripEuroMeaning(s: string)
    ensures |s| >= 5 && s[|s| - 5..] == "@euro" ==> StripEuro(s) == s[..|s| - 5]
    ensures !(|s| >= 5 && s[|s| - 5..] == "@euro") ==> StripEuro(s) == s
  {
    var at := LastIndexOf(s, '@');
    if |s| >= 5 && s[|s| - 5..] == "@euro" {
      assert s[|s| - 5] == '@';
      var k := at.value;
      assert forall j :: k < j < |s| ==> s[j] != '@' by {
        forall j | k < j < |s| ensures s[j] != '@' {
          assert s[j] == s[k + 1..][j - k - 1];
        }
      }
      assert k == |s| - 5;
    }
  }

  /** A first hit is the hit at some position, with no hit before it. */
  lemma {:induction false} FirstHitFound(hits: seq<Option<LocaleEntry>>, k: nat)
    requires k <= |hits| && FirstHit(hits, k).Some?
    ensures exists n :: (k <= n < |hits| && hits[n] == FirstHit(hits, k) &&
      forall m :: k <= m < n ==> hits[m].None?)
    decreases |hits| - k
  {
    if hits[k].None? {
      FirstHitFound(hits, k + 1);
      var n :| k + 1 <= n < |hits| && hits[n] == FirstHit(hits, k + 1) && forall m :: k + 1 <= m < n ==> hits[m].None?;
      assert forall m :: k <= m < n ==> hits[m].None?;
    }
  }

  /** There is no first hit exactly when there is no hit. */
  lemma {:induction false} FirstHitMiss(hits: seq<Option<LocaleEntry>>, k: nat)
    requires k <= |hits|
    ensures FirstHit(hits, k).None? <==> forall m :: k <= m < |hits| ==> hits[m].None?
    decreases |hits| - k
  {
    if k < |hits| && hits[k].None? {
      FirstHitMiss(hits, k + 1);
    }
  }

  /** The prefix loop yields the hit of the first rule that hits. */
  lemma RewriteFromFirstHit(cat: seq<FontencEntry>, source: string, maxLen: nat, fe: string -> Option<FontEnc>, k: nat)
    requires k <= |Prefixes|
    requires RewriteFrom(cat, source, maxLen, fe, k).Some?
    ensures exists n :: (k <= n < |Prefixes| && RuleHit(cat, source, maxLen, fe, n) == RewriteFrom(cat, source, maxLen, fe, k) &&
      forall m :: k <= m < n ==> RuleHit(cat, source, maxLen, fe, m).None?)
  {
    var hits := RuleHits(cat, source, maxLen, fe);
    FirstHitFound(hits, k);
    var n :| k <= n < |hits| && hits[n] == FirstHit(hits, k) && forall m :: k <= m < n ==> hits[m].None?;
    assert forall m :: k <= m < n ==> RuleHit(cat, source, maxLen, fe, m).None?;
  }

  /** The prefix loop yields nothing exactly when no rule hits. */
  lemma RewriteFromMiss(cat: seq<FontencEntry>, source: string, maxLen: nat, fe: string -> Option<FontEnc>, k: nat)
    requires k <= |Prefixes|
    ensures RewriteFrom(cat, source, maxLen, fe, k).None? <==>
      forall m :: k <= m < |Prefixes| ==> RuleHit(cat, source, maxLen, fe, m).None?
  {
    FirstHitMiss(RuleHits(cat, source, maxLen, fe), k);
  }

  /**
   * matchLocaleCharset: an empty name matches nothing; an exact match wins;
   * a rewrite happens only for a source name shorter than maxLen, so a name
   * cut to maxLen characters is never rewritten.
   */
  lemma MatchLocaleOutcome(cat: seq<FontencEntry>, charset: string, maxLen: nat, fe: string -> Option<FontEnc>)
    ensures charset == [] ==> MatchLocale(cat, charset, maxLen, fe).None?
    ensures var source := SourceName(charset, maxLen);
      charset != [] && FindLocaleCharset(cat, source, fe).Some? ==>
        MatchLocale(cat, charset, maxLen, fe) == FindLocaleCharset(cat, source, fe)
    ensures var source := SourceName(charset, maxLen);
      |source| >= maxLen ==> MatchLocale(cat, charset, maxLen, fe) == if charset == [] then None else FindLocaleCharset(cat, source, fe)
  {
    var source := SourceName(charset, maxLen);
    RewriteFromMiss(cat, source, maxLen, fe, 0);
  }

  // ---------------------------------------------------------------------
  // The table at work

  /** localeCharsets in source order: 33 eight-bit encodings, 6 EUC and Big5 ones, 5 "other" ones. */
  lemma TableLayout()
    ensures |LocaleCharsets| == 44
    ensures forall k :: 0 <= k < 33 ==> LocaleCharsets[k].name == Locales8Bit[k].0
    ensures forall k :: 0 <= k < 6 ==> LocaleCharsets[33 + k] == LocalesEuc[k]
    ensures forall k :: 0 <= k < 5 ==> LocaleCharsets[39 + k].name == LocalesOther[k].0
  {
    assert |Locales8Bit| == 33;
  }

  /** A run of entries whose names do not match is passed over by the exact-name search. */
  lemma {:induction false} LocaleIndexSkips(table: seq<LocaleEntry>, charset: string, lo: nat, hi: nat)
    requires lo <= hi <= |table|
    requires forall i :: lo <= i < hi ==> !LcMatch(table[i].name, charset)
    ensures LocaleIndexFrom(table, charset, lo) == LocaleIndexFrom(table, charset, hi)
    decreases hi - lo
  {
    if lo < hi {
      LocaleIndexSkips(table, charset, lo + 1, hi);
    }
  }

  // The next three lemmas split the row-by-row check that no 8-bit entry is named
  // "eucJP" into chunks small enough for the verifier to handle one at a time.
  lemma EucJPRows0()
    ensures forall k :: 0 <= k < 11 ==> !LcMatch(Locales8Bit[k].0, "eucJP")
  {
  }

  lemma EucJPRows1()
    ensures forall k :: 11 <= k < 22 ==> !LcMatch(Locales8Bit[k].0, "eucJP")
  {
  }

  lemma EucJPRows2()
    ensures forall k :: 22 <= k < 33 ==> !LcMatch(Locales8Bit[k].0, "eucJP")
  {
  }

  lemma EightBitNamesAreNotEucJP()
    ensures forall k :: 0 <= k < 33 ==> !LcMatch(LocaleCharsets[k].name, "eucJP")
  {
    TableLayout();
    EucJPRows0();
    EucJPRows1();
    EucJPRows2();
  }

  lemma NamesBeforeEucJP()
    ensures forall k :: 0 <= k < 34 ==> !LcMatch(LocaleCharsets[k].name, "eucJP")
    ensures LcMatch(LocaleCharsets[34].name, "eucJP")
  {
    EightBitNamesAreNotEucJP();
    TableLayout();
    assert LocaleCharsets[33].name == "GB2312" && LocaleCharsets[34].name == "eucJP";
  }

  /** "eucJP" is the 35th entry: ASCII in G0, JIS X 0208 in G1, the GR half of JIS X 0201 in G2, JIS X 0212 in G3. */
  lemma EucJPEntry()
    ensures LocaleIndex("eucJP") == Some(34)
    ensures LocaleCharsets[34] ==
      LocaleEntry("eucJP", 0, 1, Some("ASCII"), Some("JIS X 0208"), Some("JIS X 0201:GR"), Some("JIS X 0212"), None)
  {
    NamesBeforeEucJP();
    LocaleIndexSkips(LocaleCharsets, "eucJP", 0, 34);
    TableLayout();
  }

  /** matchLocaleCharset("eucJP") finds the eucJP entry whatever the font-encoding layer knows. */
  lemma MatchEucJP(cat: seq<FontencEntry>, maxLen: nat, fe: string -> Option<FontEnc>)
    requires maxLen >= 5
    ensures MatchLocale(cat, "eucJP", maxLen, fe) ==
      Some(LocaleEntry("eucJP", 0, 1, Some("ASCII"), Some("JIS X 0208"), Some("JIS X 0201:GR"), Some("JIS X 0212"), None))
  {
    EucJPEntry();
    assert '@' !in "eucJP";
    assert SourceName("eucJP", maxLen) == "eucJP";
  }

  lemma IbmCodePageIsNotAName()
    ensures LocaleIndex("IBM-CP866").None?
  {
    EightBitNamesAreNotIbm();
    TableLayout();
    assert forall k :: 0 <= k < 6 ==> !LcMatch(LocalesEuc[k].name, "IBM-CP866");
    assert forall k :: 0 <= k < 5 ==> !LcMatch(LocalesOther[k].0, "IBM-CP866");
    LocaleIndexSkips(LocaleCharsets, "IBM-CP866", 0, 44);
  }

  // The next three lemmas split the row-by-row check that no 8-bit entry is named
  // "IBM-CP866" into chunks small enough for the verifier to handle one at a time.
  lemma IbmRows0()
    ensures forall k :: 0 <= k < 11 ==> !LcMatch(Locales8Bit[k].0, "IBM-CP866")
  {
  }

  lemma IbmRows1()
    ensures forall k :: 11 <= k < 22 ==> !LcMatch(Locales8Bit[k].0, "IBM-CP866")
  {
  }

  lemma IbmRows2()
    ensures forall k :: 22 <= k < 33 ==> !LcMatch(Locales8Bit[k].0, "IBM-CP866")
  {
  }

  lemma EightBitNamesAreNotIbm()
    ensures forall k :: 0 <= k < 33 ==> !LcMatch(LocaleCharsets[k].name, "IBM-CP866")
  {
    TableLayout();
    IbmRows0();
    IbmRows1();
    IbmRows2();
  }

  // The next three lemmas split the row-by-row check that no 8-bit entry is named
  // "CP 866" into chunks small enough for the verifier to handle one at a time.
  lemma CodePageRows0()
    ensures forall k :: 0 <= k < 11 ==> !LcMatch(Locales8Bit[k].0, "CP 866")
  {
  }

  lemma CodePageRows1()
    ensures forall k :: 11 <= k < 22 ==> !LcMatch(Locales8Bit[k].0, "CP 866")
  {
  }

  lemma CodePageRows2()
    ensures forall k :: 22 <= k < 31 ==> !LcMatch(Locales8Bit[k].0, "CP 866")
  {
  }

  lemma NamesBeforeCodePage866()
    ensures forall k :: 0 <= k < 31 ==> !LcMatch(LocaleCharsets[k].name, "CP 866")
  {
    TableLayout();
    CodePageRows0();
    CodePageRows1();
    CodePageRows2();
  }

  lemma CodePage866Entry()
    ensures LocaleIndex("CP 866") == Some(31)
    ensures LocaleCharsets[31] == LocaleEntry("CP866", 0, 2, Some("ASCII"), None, Some("CP 866"), None, None)
  {
    NamesBeforeCodePage866();
    LocaleIndexSkips(LocaleCharsets, "CP 866", 0, 31);
    assert |Locales8Bit| == 33;
    assert LocaleCharsets[31] == EightBit(Locales8Bit)[31];
  }

  /**
   * "IBM-CP866", unknown to the table and to the font-encoding layer, is
   * rewritten by the third rule to "CP 866" and resolves to the CP866 entry.
   */
  lemma MatchIbmCodePage(cat: seq<FontencEntry>, maxLen: nat, fe: string -> Option<FontEnc>)
    requires maxLen > 9 && fe("IBM-CP866").None?
    ensures MatchLocale(cat, "IBM-CP866", maxLen, fe) ==
      Some(LocaleEntry("CP866", 0, 2, Some("ASCII"), None, Some("CP 866"), None, None))
  {
    IbmCodePageIsNotAName();
    IbmCodePageRules(cat, maxLen, fe);
    assert '@' !in "IBM-CP866";
    assert SourceName("IBM-CP866", maxLen) == "IBM-CP866";
    var hits := RuleHits(cat, "IBM-CP866", maxLen, fe);
    assert FirstHit(hits, 0) == FirstHit(hits, 1) == FirstHit(hits, 2) == hits[2];
  }

  /** "IBM-CP866": the first two rules do not apply, and the third rewrites it to "CP 866", the CP866 entry. */
  lemma IbmCodePageRules(cat: seq<FontencEntry>, maxLen: nat, fe: string -> Option<FontEnc>)
    requires maxLen > 9
    ensures RuleHit(cat, "IBM-CP866", maxLen, fe, 0).None? && RuleHit(cat, "IBM-CP866", maxLen, fe, 1).None?
    ensures RuleHit(cat, "IBM-CP866", maxLen, fe, 2) ==
      Some(LocaleEntry("CP866", 0, 2, Some("ASCII"), None, Some("CP 866"), None, None))
  {
    CodePage866Entry();
    assert Compare1Result("IBM-CP866", "ISO-", 4) == 1;
    assert Compare1Result("IBM-CP866", "DEC ", 4) == 1;
    assert Compare1Result("IBM-CP866", "IBM-CP", 6) == 0;
    assert Rewritten("IBM-CP866", 2) == "CP 866";
  }
}
