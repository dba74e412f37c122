/**
 * The iconv-backed mapping backend of luit: for each 8-bit encoding a
 * 256-entry table from byte values to Unicode, built once and kept in a
 * process-wide list of conversions.
 *
 * iconv is an oracle: opening an encoding yields a `Converter`, the output
 * (or the failure) of converting each single byte to UTF-8.
 */
module LuitConv {
  import opened Wrappers
  import opened Names
  import opened Utf8

  /** The value stored for a byte that has no usable UTF-8 conversion. */
  const UCS_REPL := 0xFFFD

  /** The size of the output buffer handed to iconv. */
  const OUTPUT_SIZE := 80

  /** The UTF-8 output of converting one byte, or None when iconv reports an error. */
  type Converter = int -> Option<seq<int>>

  /** iconv writes bytes, and leaves room in the buffer for the terminating NUL. */
  predicate ValidOutput(out: Option<seq<int>>) {
    out.Some? ==> IsBytes(out.value) && |out.value| < OUTPUT_SIZE
  }

  predicate ValidConverter(f: Converter) {
    forall n :: 0 <= n < 256 ==> ValidOutput(f(n))
  }

  /** One entry of a conversion table: the UTF-8 text of a byte and its scalar. */
  datatype MappingData = MappingData(size: nat, text: Option<seq<int>>, ucs: int)

  /** A table entry as calloc leaves it. */
  const Zeroed := MappingData(0, None, 0)

  /** A NUL-terminated copy of s stops at its first NUL. */
  function TakeUntilNul(s: seq<int>): (r: seq<int>)
    ensures |r| <= |s| && r == s[..|r|]
    ensures forall k :: 0 <= k < |r| ==> r[k] != 0
    ensures |r| < |s| ==> s[|r|] == 0
  {
    if s == [] || s[0] == 0 then [] else [s[0]] + TakeUntilNul(s[1..])
  }

  /**
   * The entry the table keeps for a byte whose conversion produced `out`:
   * on a conversion error only the scalar is set, to U+FFFD; otherwise the
   * size is the number of bytes produced, the text their copy up to the
   * first NUL, and the scalar the decoded value or U+FFFD when the bytes do
   * not decode within that size.
   */
  function TableEntry(out: Option<seq<int>>): (d: MappingData)
    requires ValidOutput(out)
  {
    match out
    case None => Zeroed.(ucs := UCS_REPL)
    case Some(o) =>
      var text := TakeUntilNul(o);
      var r := Decode(text + [0], |o|);
      MappingData(|o|, Some(text), if r.0 == 0 then UCS_REPL else r.1)
  }

  /** A failed conversion and an empty output both give U+FFFD. */
  lemma TableEntryFallbacks()
    ensures TableEntry(None) == MappingData(0, None, UCS_REPL)
    ensures TableEntry(Some([])) == MappingData(0, Some([]), UCS_REPL)
  {
  }

  lemma {:induction false} TakeUntilNulOfNulFree(s: seq<int>)
    requires forall k :: 0 <= k < |s| ==> s[k] != 0
    ensures TakeUntilNul(s) == s
  {
    if s != [] {
      TakeUntilNulOfNulFree(s[1..]);
    }
  }

  /**
   * A byte that iconv converts to the UTF-8 encoding of v is stored with
   * the scalar v and the size of that encoding.
   */
  lemma TableEntryOfEncoding(v: nat)
    requires v <= 0x7FFF_FFFF
    ensures ValidOutput(Some(Encode(v)))
    ensures TableEntry(Some(Encode(v))).ucs == v
    ensures TableEntry(Some(Encode(v))).size == |Encode(v)|
  {
    var e := Encode(v);
    DecodeEncode(v);
    if v == 0 {
      assert e == [0];
      assert TakeUntilNul(e) == [];
      assert Decode([0], 1) == (1, 0);
    } else {
      EncodeHasNoNul(v);
      TakeUntilNulOfNulFree(e);
    }
  }

  /** The alias table: luit's encoding names and the names iconv knows them by. */
  const Aliases: seq<(string, string)> := [
    ("KOI8-E", "ISO-IR-111"),
    ("TCVN-0", "TCVN5712-1:1993"),
    ("ibm-cp437", "cp437"),
    ("ibm-cp850", "cp850"),
    ("ibm-cp866", "cp866"),
    ("iso646.1973-0", "US-ASCII"),
    ("microsoft-cp1250", "windows-1250"),
    ("microsoft-cp1251", "windows-1251"),
    ("microsoft-cp1252", "windows-1252")
  ]

  /** The iconv name of the first alias from index k on whose luit name equals `name` ignoring case. */
  function AliasFrom(name: string, k: nat): (r: Option<string>)
    requires k <= |Aliases|
    ensures r.None? <==> forall j :: k <= j < |Aliases| ==> !StrCaseEqual(name, Aliases[j].0)
    ensures r.Some? ==> exists j :: k <= j < |Aliases| && StrCaseEqual(name, Aliases[j].0) &&
                                    r.value == Aliases[j].1 &&
                                    forall i :: k <= i < j ==> !StrCaseEqual(name, Aliases[i].0)
    decreases |Aliases| - k
  {
    if k == |Aliases| then None
    else if StrCaseEqual(name, Aliases[k].0) then Some(Aliases[k].1)
    else AliasFrom(name, k + 1)
  }

  /** findEncodingAlias: the alias of `name`, or None when it has none. */
  function FindEncodingAlias(name: string): (r: Option<string>)
    ensures r.None? <==> forall j :: 0 <= j < |Aliases| ==> !StrCaseEqual(name, Aliases[j].0)
    ensures r.Some? ==> exists j :: 0 <= j < |Aliases| && StrCaseEqual(name, Aliases[j].0) &&
                                    r.value == Aliases[j].1 &&
                                    forall i :: 0 <= i < j ==> !StrCaseEqual(name, Aliases[i].0)
  {
    AliasFrom(name, 0)
  }

  lemma AliasExamples()
    ensures FindEncodingAlias("koi8-e") == Some("ISO-IR-111")
    ensures FindEncodingAlias("UTF-8") == None
  {
    assert StrCaseEqual("koi8-e", Aliases[0].0);
    assert forall j :: 0 <= j < |Aliases| ==> |Aliases[j].0| != |"UTF-8"|;
  }

  /**
   * Opening iconv for `name`: on failure, one retry under the alias when
   * there is one. The result is the name the conversion is kept under and
   * the converter.
   */
  function Open(name: string, openIconv: string -> Option<Converter>): (r: Option<(string, Converter)>)
    ensures r.Some? && r.value.0 == name ==> openIconv(name) == Some(r.value.1)
    ensures r.Some? && openIconv(name).None? ==>
              FindEncodingAlias(name) == Some(r.value.0) && openIconv(r.value.0) == Some(r.value.1)
    ensures r.None? <==> openIconv(name).None? &&
                         (FindEncodingAlias(name).None? || openIconv(FindEncodingAlias(name).value).None?)
  {
    match openIconv(name)
    case Some(f) => Some((name, f))
    case None =>
      match FindEncodingAlias(name)
      case None => None
      case Some(alias) =>
        match openIconv(alias)
        case None => None
        case Some(f) => Some((alias, f))
  }

  /** An encoding that iconv opens directly is kept under its own name. */
  lemma OpenDirect(name: string, openIconv: string -> Option<Converter>)
    requires openIconv(name).Some?
    ensures Open(name, openIconv) == Some((name, openIconv(name).value))
  {
  }

  /** One open encoding: its name, its iconv handle and its table. */
  class Conversion {
    const encodingName: string
    const desc: Converter
    const table: array<MappingData>

    /** The table holds, for every byte, the entry its conversion determines. */
    predicate Valid()
      reads table
    {
      table.Length == 256 && ValidConverter(desc) &&
      forall n :: 0 <= n < 256 ==> table[n] == TableEntry(desc(n))
    }

    /** Allocate a zeroed conversion for `name` and fill its table. */
    constructor (name: string, d: Converter)
      requires ValidConverter(d)
      ensures encodingName == name && desc == d
      ensures fresh(table) && Valid()
    {
      encodingName := name;
      desc := d;
      table := new MappingData[256](_ => Zeroed);
      new;
      InitializeTable();
    }

    /** initialize_table_8bit_utf8: convert every byte value and decode the result. */
    method InitializeTable()
      requires table.Length == 256 && ValidConverter(desc)
      requires forall n :: 0 <= n < 256 ==> table[n] == Zeroed
      modifies table
      ensures Valid()
    {
      for n := 0 to 256
        invariant forall k :: 0 <= k < n ==> table[k] == TableEntry(desc(k))
        invariant forall k :: n <= k < 256 ==> table[k] == Zeroed
      {
        var converted := desc(n);
        if converted.None? {
          table[n] := table[n].(ucs := UCS_REPL);
        } else {
          var output := converted.value;
          var size := |output|;
          var text := TakeUntilNul(output);
          var rc, _ := ConvToUTF32(text + [0], size);
          if rc != 0 {
            var _, ucs := ConvToUTF32(text + [0], size);
            table[n] := MappingData(size, Some(text), ucs);
          } else {
            table[n] := MappingData(size, Some(text), UCS_REPL);
          }
        }
      }
    }
  }

  /** A FontMapPtr: NULL, or the mapping record of one conversion. */
  datatype MapPtr = NoMap | MappingOf(conv: Conversion)

  /** A FontMapReversePtr: NULL, or the reverse record of one conversion. */
  datatype ReversePtr = NoReverse | ReverseOf(conv: Conversion)

  /** The position of the first conversion whose name equals `name` ignoring case. */
  function CachedIndex(cs: seq<Conversion>, name: string): (r: Option<nat>)
    ensures r.None? <==> forall i :: 0 <= i < |cs| ==> !StrCaseEqual(name, cs[i].encodingName)
    ensures r.Some? ==> r.value < |cs| && StrCaseEqual(name, cs[r.value].encodingName) &&
                        forall i :: 0 <= i < r.value ==> !StrCaseEqual(name, cs[i].encodingName)
  {
    if cs == [] then None
    else if StrCaseEqual(name, cs[0].encodingName) then Some(0)
    else match CachedIndex(cs[1..], name)
      case None => None
      case Some(i) => Some(i + 1)
  }

  /** s without the first occurrence of c; s itself when c does not occur. */
  function RemoveFirst(s: seq<Conversion>, c: Conversion): (r: seq<Conversion>)
    ensures c !in s ==> r == s
  {
    if s == [] then []
    else if s[0] == c then s[1..]
    else [s[0]] + RemoveFirst(s[1..], c)
  }

  /** Removing the first occurrence, at index i, splices s around i. */
  lemma {:induction false} RemoveFirstAt(s: seq<Conversion>, c: Conversion, i: nat)
    requires i < |s| && s[i] == c && c !in s[..i]
    ensures RemoveFirst(s, c) == s[..i] + s[i + 1..]
  {
    if i > 0 {
      assert s[0] == s[..i][0];
      assert s[1..][..i - 1] == s[1..i];
      RemoveFirstAt(s[1..], c, i - 1);
      assert s[..i] == [s[0]] + s[1..i];
    }
  }

  /** In a list without repetitions, RemoveFirst removes exactly c and keeps the rest in order. */
  lemma RemoveFirstDistinct(s: seq<Conversion>, c: Conversion, i: nat)
    requires forall i, j :: 0 <= i < j < |s| ==> s[i] != s[j]
    requires i < |s| && s[i] == c
    ensures RemoveFirst(s, c) == s[..i] + s[i + 1..]
    ensures |RemoveFirst(s, c)| == |s| - 1
    ensures c !in RemoveFirst(s, c)
    ensures forall d :: d in s && d != c ==> d in RemoveFirst(s, c)
  {
    assert c !in s[..i];
    RemoveFirstAt(s, c, i);
    forall d | d in s && d != c ensures d in RemoveFirst(s, c) {
      var k :| 0 <= k < |s| && s[k] == d;
      if k < i { assert s[..i][k] == d; } else { assert s[i + 1..][k - i - 1] == d; }
    }
  }

  /** all_conversions: the open conversions, most recently opened first. */
  class ConversionList {
    var all: seq<Conversion>

    predicate Valid()
      reads this, set c | c in all :: c.table
    {
      (forall i, j :: 0 <= i < j < |all| ==> all[i] != all[j]) &&
      (forall c :: c in all ==> c.Valid())
    }

    constructor ()
      ensures all == [] && Valid()
    {
      all := [];
    }

    /**
     * luitLookupMapping as written: a name already in the list (ignoring
     * case) builds nothing and returns NULL; otherwise a successful open
     * prepends one conversion, under the possibly aliased name, and returns
     * its mapping.
     */
    method LookupMapping(name: string, openIconv: string -> Option<Converter>) returns (result: MapPtr)
      requires Valid()
      requires forall nm :: openIconv(nm).Some? ==> ValidConverter(openIconv(nm).value)
      modifies this
      ensures Valid()
      ensures CachedIndex(old(all), name).Some? ==> all == old(all) && result == NoMap
      ensures CachedIndex(old(all), name).None? && Open(name, openIconv).None? ==>
                all == old(all) && result == NoMap
      ensures CachedIndex(old(all), name).None? && Open(name, openIconv).Some? ==>
                |all| == |old(all)| + 1 && all[1..] == old(all) && fresh(all[0]) &&
                all[0].encodingName == Open(name, openIconv).value.0 &&
                all[0].desc == Open(name, openIconv).value.1 &&
                result == MappingOf(all[0])
    {
      result := NoMap;
      var i := 0;
      while i < |all| && !StrCaseEqual(name, all[i].encodingName)
        invariant i <= |all|
        invariant forall k :: 0 <= k < i ==> !StrCaseEqual(name, all[k].encodingName)
      {
        i := i + 1;
      }
      if i == |all| {
        var encodingName := name;
        var myDesc := openIconv(encodingName);
        if myDesc.None? {
          var alias := FindEncodingAlias(encodingName);
          if alias.Some? {
            encodingName := alias.value;
            myDesc := openIconv(encodingName);
          }
        }
        if myDesc.Some? {
          var latest := new Conversion(encodingName, myDesc.value);
          all := [latest] + all;
          result := MappingOf(latest);
        }
      }
    }

    /** luitLookupMapping with the cache hit returning the cached mapping. */
    method LookupMappingCorrected(name: string, openIconv: string -> Option<Converter>) returns (result: MapPtr)
      requires Valid()
      requires forall nm :: openIconv(nm).Some? ==> ValidConverter(openIconv(nm).value)
      modifies this
      ensures Valid()
      ensures CachedIndex(old(all), name).Some? ==>
                all == old(all) && result == MappingOf(all[CachedIndex(old(all), name).value])
      ensures CachedIndex(old(all), name).None? && Open(name, openIconv).None? ==>
                all == old(all) && result == NoMap
      ensures CachedIndex(old(all), name).None? && Open(name, openIconv).Some? ==>
                |all| == |old(all)| + 1 && all[1..] == old(all) && fresh(all[0]) &&
                all[0].encodingName == Open(name, openIconv).value.0 &&
                all[0].desc == Open(name, openIconv).value.1 &&
                result == MappingOf(all[0])
    {
      result := NoMap;
      var i := 0;
      while i < |all| && !StrCaseEqual(name, all[i].encodingName)
        invariant i <= |all|
        invariant forall k :: 0 <= k < i ==> !StrCaseEqual(name, all[k].encodingName)
      {
        i := i + 1;
      }
      if i < |all| {
        result := MappingOf(all[i]);
      } else {
        var encodingName := name;
        var myDesc := openIconv(encodingName);
        if myDesc.None? {
          var alias := FindEncodingAlias(encodingName);
          if alias.Some? {
            encodingName := alias.value;
            myDesc := openIconv(encodingName);
          }
        }
        if myDesc.Some? {
          var latest := new Conversion(encodingName, myDesc.value);
          all := [latest] + all;
          result := MappingOf(latest);
        }
      }
    }

    /**
     * Looking the same name up twice: as written, the second lookup returns
     * NULL even though the first one opened the encoding.
     */
    method LookupTwice(name: string, openIconv: string -> Option<Converter>) returns (first: MapPtr, second: MapPtr)
      requires Valid() && CachedIndex(all, name).None?
      requires forall nm :: openIconv(nm).Some? ==> ValidConverter(openIconv(nm).value)
      requires openIconv(name).Some?
      modifies this
      ensures first.MappingOf? && second == NoMap
    {
      first := LookupMapping(name, openIconv);
      assert all[0].encodingName == name;
      assert CachedIndex(all, name).Some?;
      second := LookupMapping(name, openIconv);
    }

    /** The same two lookups with the correction: both return the same mapping. */
    method LookupTwiceCorrected(name: string, openIconv: string -> Option<Converter>) returns (first: MapPtr, second: MapPtr)
      requires Valid() && CachedIndex(all, name).None?
      requires forall nm :: openIconv(nm).Some? ==> ValidConverter(openIconv(nm).value)
      requires openIconv(name).Some?
      modifies this
      ensures first.MappingOf? && second == first
    {
      first := LookupMappingCorrected(name, openIconv);
      assert all[0].encodingName == name;
      assert CachedIndex(all, name) == Some(0);
      second := LookupMappingCorrected(name, openIconv);
    }

    /** luitLookupReverse: the reverse record of the listed conversion the mapping belongs to. */
    method LookupReverse(mapping: MapPtr) returns (result: ReversePtr)
      ensures mapping.MappingOf? && mapping.conv in all ==> result == ReverseOf(mapping.conv)
      ensures !(mapping.MappingOf? && mapping.conv in all) ==> result == NoReverse
    {
      result := NoReverse;
      var i := 0;
      while i < |all|
        invariant i <= |all|
        invariant result == NoReverse && forall k :: 0 <= k < i ==> MappingOf(all[k]) != mapping
      {
        if mapping == MappingOf(all[i]) {
          result := ReverseOf(all[i]);
          return;
        }
        i := i + 1;
      }
    }

    /**
     * luitMapCodeValue: a code below 256 under a listed mapping becomes the
     * scalar its table holds, which is what the conversion of that byte
     * decodes to; any other code is returned unchanged.
     */
    method MapCodeValue(code: nat, mapping: MapPtr) returns (result: int)
      requires Valid()
      ensures code < 256 && mapping.MappingOf? && mapping.conv in all ==>
                result == mapping.conv.table[code].ucs == TableEntry(mapping.conv.desc(code)).ucs
      ensures !(code < 256 && mapping.MappingOf? && mapping.conv in all) ==> result == code
    {
      result := code;
      if code < 256 {
        var i := 0;
        while i < |all|
          invariant i <= |all|
          invariant result == code && forall k :: 0 <= k < i ==> MappingOf(all[k]) != mapping
        {
          if MappingOf(all[i]) == mapping {
            assert all[i].Valid();
            result := all[i].table[code].ucs;
            return;
          }
          i := i + 1;
        }
      }
    }

    /**
     * luitDestroyReverse: unlink the conversion the reverse record belongs
     * to, keeping the others in order; nothing changes when it is not listed.
     */
    method DestroyReverse(reverse: ReversePtr)
      requires Valid()
      modifies this
      ensures Valid()
      ensures reverse.ReverseOf? ==> all == RemoveFirst(old(all), reverse.conv)
      ensures reverse.NoReverse? ==> all == old(all)
    {
      var i := 0;
      while i < |all| && ReverseOf(all[i]) != reverse
        invariant i <= |all|
        invariant forall k :: 0 <= k < i ==> ReverseOf(all[k]) != reverse
      {
        i := i + 1;
      }
      if i < |all| {
        RemoveFirstDistinct(all, all[i], i);
        all := all[..i] + all[i + 1..];
      } else {
        assert reverse.ReverseOf? ==> reverse.conv !in all;
      }
    }
  }
}
