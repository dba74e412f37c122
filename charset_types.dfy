/**
 * The values luit's charset layer works with: the structural types of
 * ISO/IEC 2022 graphic sets, the compiled-in catalog of font-encoding
 * charsets, the "other" (stateful multibyte) charsets, the charset records
 * handed out to callers, and the per-record recode and reverse functions.
 *
 * The mapping backend (LookupMapping, LookupReverse, MapCodeValue), the
 * ".enc" file lookup and the "other" plugins are code outside this model;
 * they appear as the oracle functions of a `Backend`.
 */
module CharsetTypes {
  import opened Wrappers

  /** The structural type of a graphic set; TFailed marks a catalog slot whose build failed. */
  datatype CharsetType = T94 | T96 | T128 | T9494 | T9696 | T94192 | TOther | TFailed

  /** The types of ISO/IEC 2022 sets, the ones FontencCharsetReverse knows how to check. */
  predicate IsIso(t: CharsetType) {
    t.T94? || t.T96? || t.T128? || t.T9494? || t.T9696? || t.T94192?
  }

  /** The code size asked of the mapping backend for a set of the given type. */
  datatype UsSize = Us8Bit | Us16Bit | UsAny

  function CpSize(t: CharsetType): (s: UsSize)
    ensures s == Us8Bit <==> t.T94? || t.T96? || t.T128?
    ensures s == Us16Bit <==> t.T9494? || t.T9696? || t.T94192?
  {
    match t
    case T94 => Us8Bit
    case T96 => Us8Bit
    case T128 => Us8Bit
    case T9494 => Us16Bit
    case T9696 => Us16Bit
    case T94192 => Us16Bit
    case _ => UsAny
  }

  /**
   * A slot of the font-encoding catalog. A slot with no name is empty; the
   * first empty slot ends every scan. `mapping` and `reverse` are the
   * backend handles stored once the slot has been built.
   */
  datatype FontencEntry = FontencEntry(
    name: Option<string>, ctype: CharsetType, final: char, xlfd: string, shift: nat,
    mapping: Option<nat>, reverse: Option<nat>)

  const EmptyFontenc := FontencEntry(None, TFailed, '\0', "", 0, None, None)

  /** A row of a catalog group: name, final byte, X font-encoding name, shift. */
  type Row = (string, char, string, nat)

  /** Catalog slots of one type, built from rows. */
  function Group(t: CharsetType, rows: seq<Row>): (g: seq<FontencEntry>)
    ensures |g| == |rows|
    ensures forall i :: 0 <= i < |g| ==> g[i].name.Some? && g[i].ctype == t
  {
    seq(|rows|, i requires 0 <= i < |rows| => FontencEntry(Some(rows[i].0), t, rows[i].1, rows[i].2, rows[i].3, None, None))
  }

  /** fontencCharsets as compiled in: 49 named sets, in table order, then 5 empty slots. */
  const FontencCharsets: seq<FontencEntry> :=
    Sets94 + Sets96 + Sets9494 + Sets9696 + Sets9494Cns + Sets128 + Sets94192 +
    [EmptyFontenc, EmptyFontenc, EmptyFontenc, EmptyFontenc, EmptyFontenc]

  const Sets94 := Group(T94, [
    ("ISO 646 (1973)", '@', "iso646.1973-0", 0x00),
    ("ASCII", 'B', "iso8859-1", 0x00),
    ("JIS X 0201:GL", 'J', "jisx0201.1976-0", 0x00),
    ("JIS X 0201:GR", 'I', "jisx0201.1976-0", 0x80),
    ("DEC Special", '0', "dec-special", 0x00),
    ("DEC Technical", '>', "dec-technical", 0x00)
  ])

  const Sets96 := Group(T96, [
    ("ISO 8859-1", 'A', "iso8859-1", 0x80),
    ("ISO 8859-2", 'B', "iso8859-2", 0x80),
    ("ISO 8859-3", 'C', "iso8859-3", 0x80),
    ("ISO 8859-4", 'D', "iso8859-4", 0x80),
    ("ISO 8859-5", 'L', "iso8859-5", 0x80),
    ("ISO 8859-6", 'G', "iso8859-6", 0x80),
    ("ISO 8859-7", 'F', "iso8859-7", 0x80),
    ("ISO 8859-8", 'H', "iso8859-8", 0x80),
    ("ISO 8859-9", 'M', "iso8859-9", 0x80),
    ("ISO 8859-10", 'V', "iso8859-10", 0x80),
    ("ISO 8859-11", 'T', "iso8859-11", 0x80),
    ("TIS 620", 'T', "iso8859-11", 0x80),
    ("ISO 8859-13", 'Y', "iso8859-13", 0x80),
    ("ISO 8859-14", '_', "iso8859-14", 0x80),
    ("ISO 8859-15", 'b', "iso8859-15", 0x80),
    ("ISO 8859-16", 'f', "iso8859-16", 0x80),
    ("KOI8-E", '@', "koi8-e", 0x80),
    ("TCVN", 'Z', "tcvn-0", 0x80)
  ])

  const Sets9494 := Group(T9494, [
    ("GB 2312", 'A', "gb2312.1980-0", 0x0000),
    ("JIS X 0208", 'B', "jisx0208.1990-0", 0x0000),
    ("KSC 5601", 'C', "ksc5601.1987-0", 0x0000),
    ("JIS X 0212", 'D', "jisx0212.1990-0", 0x0000)
  ])

  const Sets9696 := Group(T9696, [
    ("GB 2312", 'A', "gb2312.1980-0", 0x0000),
    ("JIS X 0208", 'B', "jisx0208.1990-0", 0x0000),
    ("KSC 5601", 'C', "ksc5601.1987-0", 0x0000),
    ("JIS X 0212", 'D', "jisx0212.1990-0", 0x0000)
  ])

  const Sets9494Cns := Group(T9494, [
    ("CNS11643-1", 'G', "cns11643-1", 0x0000),
    ("CNS11643-2", 'H', "cns11643-2", 0x0000),
    ("CNS11643-3", 'I', "cns11643-3", 0x0000)
  ])

  const Sets128 := Group(T128, [
    ("APL2", '\0', "apl2", 0x80),
    ("KOI8-R", '\0', "koi8-r", 0x80),
    ("KOI8-U", '\0', "koi8-u", 0x80),
    ("KOI8-RU", '\0', "koi8-ru", 0x80),
    ("CP 1250", '\0', "microsoft-cp1250", 0x80),
    ("CP 1251", '\0', "microsoft-cp1251", 0x80),
    ("CP 1252", '\0', "microsoft-cp1252", 0x80),
    ("CP 1255", '\0', "microsoft-cp1255", 0x80),
    ("CP 437", '\0', "ibm-cp437", 0x80),
    ("CP 850", '\0', "ibm-cp850", 0x80),
    ("CP 852", '\0', "ibm-cp852", 0x80),
    ("CP 865", '\0', "ibm-cp865", 0x80),
    ("CP 866", '\0', "ibm-cp866", 0x80)
  ])

  const Sets94192 := Group(T94192, [
    ("Big 5", '\0', "big5.eten-0", 0x8000)
  ])

  /**
   * A well-formed catalog: it ends with an empty slot, every slot after an
   * empty one is empty, and every named slot has an ISO type or has failed.
   */
  predicate ValidCatalog(cat: seq<FontencEntry>) {
    |cat| > 0 && cat[|cat| - 1].name.None? &&
    (forall i, j :: 0 <= i < j < |cat| && cat[i].name.None? ==> cat[j].name.None?) &&
    (forall i :: 0 <= i < |cat| && cat[i].name.Some? ==> IsIso(cat[i].ctype) || cat[i].ctype.TFailed?)
  }

  /** A catalog of n named slots of ISO types followed by at least one empty slot is well formed. */
  lemma NamedThenEmpty(c: seq<FontencEntry>, n: nat)
    requires n < |c|
    requires forall i :: 0 <= i < n ==> c[i].name.Some? && IsIso(c[i].ctype)
    requires forall i :: n <= i < |c| ==> c[i].name.None?
    ensures ValidCatalog(c)
  {
  }

  /** The compiled-in catalog is well formed and has four extension slots before its terminator. */
  lemma CompiledCatalog()
    ensures |FontencCharsets| == 54
    ensures ValidCatalog(FontencCharsets)
    ensures forall i :: 0 <= i < 49 ==> FontencCharsets[i].name.Some?
    ensures forall i :: 49 <= i < 54 ==> FontencCharsets[i] == EmptyFontenc
  {
    CompiledSlots();
    NamedThenEmpty(FontencCharsets, 49);
  }

  lemma CompiledSlots()
    ensures |FontencCharsets| == 54
    ensures forall i :: 0 <= i < 49 ==> FontencCharsets[i].name.Some? && IsIso(FontencCharsets[i].ctype)
    ensures forall i :: 49 <= i < 54 ==> FontencCharsets[i] == EmptyFontenc
  {
    var c := FontencCharsets;
    assert forall i :: 0 <= i < 6 ==> c[i] == Sets94[i - 0];
    assert forall i :: 6 <= i < 24 ==> c[i] == Sets96[i - 6];
    assert forall i :: 24 <= i < 28 ==> c[i] == Sets9494[i - 24];
    assert forall i :: 28 <= i < 32 ==> c[i] == Sets9696[i - 28];
    assert forall i :: 32 <= i < 35 ==> c[i] == Sets9494Cns[i - 32];
    assert forall i :: 35 <= i < 48 ==> c[i] == Sets128[i - 35];
    assert forall i :: 48 <= i < 49 ==> c[i] == Sets94192[i - 48];
  }

  /** The names of the "other" charsets, in the order of otherCharsets. */
  const OtherCharsets: seq<string> := ["GBK", "UTF-8", "SJIS", "BIG5-HKSCS", "GB18030"]

  /** What a charset record carries besides its name, type and final byte. */
  datatype CharsetData =
    | NoData                                                      // an "unknown" placeholder
    | FontencData(slot: nat, shift: nat, mapping: nat, reverse: nat)  // built from catalog slot `slot`
    | OtherData(plugin: nat)                                      // an entry of OtherCharsets

  /**
   * A charset record. `id` stands for the record's address: 0 for the four
   * static placeholders, a fresh positive number for each allocated record.
   */
  datatype Charset = Charset(id: nat, name: string, ctype: CharsetType, final: char, data: CharsetData)

  /** A font-encoding description: its name, number of codes and row size. */
  datatype FontEnc = FontEnc(name: string, size: int, rowSize: int)

  /** The code outside this model, as oracles. */
  datatype Backend = Backend(
    lookupMapping: (string, UsSize) -> Option<nat>,  // LookupMapping(xlfd, size)
    lookupReverse: nat -> Option<nat>,               // LookupReverse(mapping)
    mapCode: (nat, nat) -> nat,                      // MapCodeValue(code, mapping)
    reverseCode: (nat, nat) -> nat,                  // reverse->reverse(code, data)
    initOther: nat -> bool,                          // the plugin's init hook
    otherMapping: (nat, nat) -> nat,                 // the plugin's mapping function
    otherReverse: (nat, nat) -> nat,                 // the plugin's reverse function
    lookupOneFontenc: string -> Option<FontEnc>,     // a ".enc" file of that name
    typeOfFontenc: FontEnc -> int,                   // its number of codes per row
    shiftOfFontenc: FontEnc -> nat,                  // its first code
    getFontEnc: string -> Option<FontEnc>)           // luitGetFontEnc

  /** getUnknownCharset: the static placeholder for a type, Unknown (94) for any other type. */
  function UnknownCharset(t: CharsetType): (c: Charset)
    ensures c.id == 0 && c.data == NoData && c.final == '\0'
    ensures t.T94? || t.T96? || t.T9494? || t.T9696? ==> c.ctype == t
    ensures !(t.T94? || t.T96? || t.T9494? || t.T9696?) ==> c.ctype == T94
  {
    match t
    case T96 => Charset(0, "Unknown (96)", T96, '\0', NoData)
    case T9494 => Charset(0, "Unknown (94x94)", T9494, '\0', NoData)
    case T9696 => Charset(0, "Unknown (96x96)", T9696, '\0', NoData)
    case _ => Charset(0, "Unknown (94)", T94, '\0', NoData)
  }

  const TWO_32 := 0x1_0000_0000

  predicate IsGL(x: int) {
    0x20 <= x < 0x80
  }

  /**
   * FontencCharsetReverse, given n, the backend's reverse of the code: -1
   * unless n is nonzero and at least the shift, and n - shift is a legal
   * code for the set's type.
   */
  function FontencReverse(t: CharsetType, shift: nat, n: nat): (r: int)
    requires IsIso(t)
  {
    if n != 0 && n >= shift then
      var m := n - shift;
      match t
      case T94 => if IsGL(m) then m else -1
      case T96 => if IsGL(m) then m else -1
      case T128 => if m < 0x80 then m else -1
      case T9494 => if IsGL(m / 0x100) && IsGL(m % 0x100) then m else -1
      case T9696 => if IsGL(m / 0x100) && IsGL(m % 0x100) then m else -1
      case T94192 => if IsGL(m / 0x100) && IsGL(m % 0x80) then m else -1
    else -1
  }

  /** A two-byte code from its high and low byte. */
  function TwoBytes(hi: int, lo: int): int {
    hi * 0x100 + lo
  }

  /**
   * The codes of a set: one GL byte for 94- and 96-sets, one 7-bit value
   * for 128-sets, two GL bytes for 94x94 and 96x96 sets, and for 94x192
   * sets a GL high byte with a low byte whose low 7 bits are in GL.
   */
  ghost predicate LegalCode(t: CharsetType, m: int)
    requires IsIso(t)
  {
    match t
    case T94 => IsGL(m)
    case T96 => IsGL(m)
    case T128 => 0 <= m < 0x80
    case T9494 => exists hi, lo :: IsGL(hi) && IsGL(lo) && m == TwoBytes(hi, lo)
    case T9696 => exists hi, lo :: IsGL(hi) && IsGL(lo) && m == TwoBytes(hi, lo)
    case T94192 => exists hi, lo :: IsGL(hi) && 0 <= lo < 0x100 && IsGL(lo % 0x80) && m == TwoBytes(hi, lo)
  }

  lemma TwoBytesSplit(hi: int, lo: int)
    requires 0 <= lo < 0x100
    ensures TwoBytes(hi, lo) / 0x100 == hi && TwoBytes(hi, lo) % 0x100 == lo
  {
  }

  /**
   * FontencCharsetReverse returns -1 or n - shift, and returns n - shift
   * exactly when n is nonzero, at least the shift, and n - shift is a legal
   * code for the set.
   */
  lemma FontencReverseMeaning(t: CharsetType, shift: nat, n: nat)
    requires IsIso(t)
    ensures FontencReverse(t, shift, n) == -1 || FontencReverse(t, shift, n) == n - shift
    ensures FontencReverse(t, shift, n) != -1 <==> n != 0 && n >= shift && LegalCode(t, n - shift)
  {
    if n != 0 && n >= shift {
      var m := n - shift;
      if t.T9494? || t.T9696? || t.T94192? {
        var hi, lo := m / 0x100, m % 0x100;
        assert m == TwoBytes(hi, lo);
        if LegalCode(t, m) {
          var h, l :| IsGL(h) && 0 <= l < 0x100 && m == TwoBytes(h, l);
          TwoBytesSplit(h, l);
        }
      }
    }
  }

  /** A reverse result of 0, or one below the shift, is never a code. */
  lemma FontencReverseRejects(t: CharsetType, shift: nat)
    requires IsIso(t)
    ensures FontencReverse(t, shift, 0) == -1
    ensures forall n: nat :: n < shift ==> FontencReverse(t, shift, n) == -1
  {
  }

  /** The recode function of a record: the code in the set to a Unicode value. */
  function Recode(c: Charset, n: nat, b: Backend): nat {
    match c.data
    case NoData => n
    case FontencData(_, shift, mapping, _) => b.mapCode((n + shift) % TWO_32, mapping)
    case OtherData(k) => b.otherMapping(k, n)
  }

  /** The reverse function of a record: a Unicode value to the code in the set, or -1. */
  function Reverse(c: Charset, i: nat, b: Backend): int
    requires c.data.FontencData? ==> IsIso(c.ctype)
  {
    match c.data
    case NoData => -1
    case FontencData(_, shift, _, reverse) => FontencReverse(c.ctype, shift, b.reverseCode(reverse, i))
    case OtherData(k) => b.otherReverse(k, i)
  }

  /** The placeholders recode every code to itself and reverse nothing. */
  lemma UnknownIsInert(t: CharsetType, n: nat, i: nat, b: Backend)
    ensures Recode(UnknownCharset(t), n, b) == n
    ensures Reverse(UnknownCharset(t), i, b) == -1
  {
  }

  /** A record built from a catalog slot recodes through the slot's mapping, after adding the shift. */
  lemma FontencRecodeShifts(c: Charset, n: nat, b: Backend)
    requires c.data.FontencData? && n + c.data.shift < TWO_32
    ensures Recode(c, n, b) == b.mapCode(n + c.data.shift, c.data.mapping)
  {
  }
}
