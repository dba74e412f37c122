/**
 * getLocaleState: choose the locale encoding's entry in localeCharsets and
 * designate its charsets through getCharsetByName, which builds and caches
 * them in the registry.
 */
module LocaleState {
  import opened Wrappers
  import opened Names
  import opened CharsetTypes
  import opened CharsetSpec
  import opened Locale
  import opened CharsetRegistry

  /** What getLocaleState stores through its out-parameters when it succeeds. */
  datatype Designations = Designations(
    gl: nat, gr: nat, g0: Charset, g1: Charset, g2: Charset, g3: Charset, other: Option<Charset>)

  /** IsEmpty: a NULL or empty string. */
  predicate IsEmpty(s: Option<string>) {
    s.None? || s.value == []
  }

  /**
   * The encoding name getLocaleState matches: the charset argument when
   * given; else the locale itself when locales are ignored; else the text
   * after the last '.' of what the locale resolves to (or all of it).
   * Nothing when the locale does not resolve.
   */
  function CharsetOfLocale(locale: string, charset: Option<string>, ignoreLocale: bool,
                           resolve: string -> Option<string>): (r: Option<string>)
    ensures !IsEmpty(charset) ==> r == charset
    ensures IsEmpty(charset) && ignoreLocale ==> r == Some(locale)
    ensures r.None? <==> IsEmpty(charset) && !ignoreLocale && resolve(locale).None?
    ensures IsEmpty(charset) && !ignoreLocale && resolve(locale).Some? ==>
      r.Some? && '.' !in r.value &&
      exists k :: 0 <= k <= |resolve(locale).value| && resolve(locale).value[k..] == r.value &&
        (k == 0 || resolve(locale).value[k - 1] == '.')
  {
    if !IsEmpty(charset) then charset
    else if ignoreLocale then Some(locale)
    else match resolve(locale)
      case None => None
      case Some(resolved) =>
        match LastIndexOf(resolved, '.')
        case Some(dot) => Some(resolved[dot + 1..])
        case None =>
          assert resolved[0..] == resolved;
          Some(resolved)
  }

  /** getCharsetByName on G0, G1, G2 and G3 in turn, then on the "other" encoding when there is one. */
  function DesignateSpec(st: State, p: LocaleEntry, b: Backend): (State, Designations) {
    var (s0, c0) := GetCharsetByNameSpec(st, p.g0, b);
    var (s1, c1) := GetCharsetByNameSpec(s0, p.g1, b);
    var (s2, c2) := GetCharsetByNameSpec(s1, p.g2, b);
    var (s3, c3) := GetCharsetByNameSpec(s2, p.g3, b);
    if p.other.Some? then
      var (s4, c4) := GetCharsetByNameSpec(s3, p.other, b);
      (s4, Designations(p.gl, p.gr, c0, c1, c2, c3, Some(c4)))
    else (s3, Designations(p.gl, p.gr, c0, c1, c2, c3, None))
  }

  /**
   * getLocaleState: 0 and the designations of the matched entry, or -1 and
   * nothing (the registry untouched) when the locale does not resolve or
   * no entry matches. The catalog searched is the registry's at the call.
   */
  function LocaleStateSpec(st: State, locale: string, charset: Option<string>, ignoreLocale: bool,
                           resolve: string -> Option<string>, maxLen: nat, b: Backend): (State, int, Option<Designations>) {
    match CharsetOfLocale(locale, charset, ignoreLocale, resolve)
    case None => (st, -1, None)
    case Some(name) =>
      match MatchLocale(st.catalog, name, maxLen, b.getFontEnc)
      case None => (st, -1, None)
      case Some(p) =>
        var (st1, d) := DesignateSpec(st, p, b);
        (st1, 0, Some(d))
  }

  /** getLocaleState on the registry. */
  method GetLocaleState(reg: Registry, locale: string, charset: Option<string>, ignoreLocale: bool,
                        resolve: string -> Option<string>, maxLen: nat, b: Backend)
    returns (result: int, d: Option<Designations>)
    requires reg.Valid()
    modifies reg, reg.catalog
    ensures reg.Valid()
    ensures (reg.State(), result, d) ==
      LocaleStateSpec(old(reg.State()), locale, charset, ignoreLocale, resolve, maxLen, b)
  {
    var name := charset;
    if IsEmpty(charset) {
      if ignoreLocale {
        name := Some(locale);
      } else {
        var resolved := resolve(locale);
        if resolved.None? {
          return -1, None;
        }
        var dot := LastIndexOf(resolved.value, '.');
        if dot.Some? {
          name := Some(resolved.value[dot.value + 1..]);
        } else {
          name := resolved;
        }
      }
    }
    assert name == CharsetOfLocale(locale, charset, ignoreLocale, resolve);
    var p := MatchLocaleCharset(reg.catalog[..], name.value, maxLen, b.getFontEnc);
    if p.None? {
      return -1, None;
    }
    var e := p.value;
    ghost var st := reg.State();
    var c0 := reg.GetCharsetByName(e.g0, b);
    var c1 := reg.GetCharsetByName(e.g1, b);
    var c2 := reg.GetCharsetByName(e.g2, b);
    var c3 := reg.GetCharsetByName(e.g3, b);
    var other := None;
    if e.other.Some? {
      var c4 := reg.GetCharsetByName(e.other, b);
      other := Some(c4);
    }
    assert (reg.State(), Designations(e.gl, e.gr, c0, c1, c2, c3, other)) == DesignateSpec(st, e, b);
    return 0, Some(Designations(e.gl, e.gr, c0, c1, c2, c3, other));
  }

  // ---------------------------------------------------------------------
  // What getLocaleState guarantees

  /** A part is designated by a cached record whose name matches the part's name, or by Unknown (94). */
  predicate Designated(st: State, c: Charset, name: Option<string>) {
    c == UnknownCharset(T94) || (c in st.cache && name.Some? && LcMatch(c.name, name.value))
  }

  /** One getCharsetByName keeps the registry valid, keeps every cached record, and designates the part. */
  lemma DesignatePartOutcome(st: State, name: Option<string>, b: Backend)
    requires ValidState(st)
    ensures var (st1, c) := GetCharsetByNameSpec(st, name, b);
      ValidState(st1) && (forall x :: x in st.cache ==> x in st1.cache) && Designated(st1, c, name)
  {
    GetCharsetByNameResult(st, name, b);
    GetCharsetByNameCache(st, name, b);
  }

  /** Designating an entry keeps the registry valid and designates every part by its name. */
  lemma DesignateOutcome(st: State, p: LocaleEntry, b: Backend)
    requires ValidState(st)
    ensures var (st1, d) := DesignateSpec(st, p, b);
      ValidState(st1) && (forall x :: x in st.cache ==> x in st1.cache) &&
      d.gl == p.gl && d.gr == p.gr &&
      Designated(st1, d.g0, p.g0) && Designated(st1, d.g1, p.g1) &&
      Designated(st1, d.g2, p.g2) && Designated(st1, d.g3, p.g3) &&
      (d.other.None? <==> p.other.None?) &&
      (d.other.Some? ==> Designated(st1, d.other.value, p.other))
  {
    var (s0, c0) := GetCharsetByNameSpec(st, p.g0, b);
    DesignatePartOutcome(st, p.g0, b);
    var (s1, c1) := GetCharsetByNameSpec(s0, p.g1, b);
    DesignatePartOutcome(s0, p.g1, b);
    var (s2, c2) := GetCharsetByNameSpec(s1, p.g2, b);
    DesignatePartOutcome(s1, p.g2, b);
    var (s3, c3) := GetCharsetByNameSpec(s2, p.g3, b);
    DesignatePartOutcome(s2, p.g3, b);
    if p.other.Some? {
      DesignatePartOutcome(s3, p.other, b);
    }
  }

  /**
   * getLocaleState returns 0 or -1; -1 exactly when the name does not
   * resolve or matches no entry, and then nothing changes; 0 with GL and GR
   * from the matched entry and each G0-G3 designated by its name.
   */
  lemma LocaleStateOutcome(st: State, locale: string, charset: Option<string>, ignoreLocale: bool,
                           resolve: string -> Option<string>, maxLen: nat, b: Backend)
    requires ValidState(st)
    ensures var (st1, result, d) := LocaleStateSpec(st, locale, charset, ignoreLocale, resolve, maxLen, b);
      var name := CharsetOfLocale(locale, charset, ignoreLocale, resolve);
      ValidState(st1) && (result == 0 || result == -1) && (result == -1 <==> d.None?) &&
      (result == -1 <==> name.None? || MatchLocale(st.catalog, name.value, maxLen, b.getFontEnc).None?) &&
      (result == -1 ==> st1 == st) &&
      (result == 0 ==>
        var p := MatchLocale(st.catalog, name.value, maxLen, b.getFontEnc).value;
        d.value.gl == p.gl && d.value.gr == p.gr &&
        Designated(st1, d.value.g0, p.g0) && Designated(st1, d.value.g1, p.g1) &&
        Designated(st1, d.value.g2, p.g2) && Designated(st1, d.value.g3, p.g3) &&
        (d.value.other.None? <==> p.other.None?))
  {
    var name := CharsetOfLocale(locale, charset, ignoreLocale, resolve);
    if name.Some? {
      var p := MatchLocale(st.catalog, name.value, maxLen, b.getFontEnc);
      if p.Some? {
        DesignateOutcome(st, p.value, b);
      }
    }
  }

  /**
   * An "eucJP" locale: GL invokes G0 and GR G1; G0-G3 are designated for
   * ASCII, JIS X 0208, the GR half of JIS X 0201 and JIS X 0212, and there
   * is no "other" encoding.
   */
  lemma EucJPLocaleState(st: State, locale: string, ignoreLocale: bool,
                         resolve: string -> Option<string>, maxLen: nat, b: Backend)
    requires ValidState(st) && maxLen >= 5
    ensures var (st1, result, d) := LocaleStateSpec(st, locale, Some("eucJP"), ignoreLocale, resolve, maxLen, b);
      result == 0 && d.Some? && d.value.gl == 0 && d.value.gr == 1 &&
      Designated(st1, d.value.g0, Some("ASCII")) && Designated(st1, d.value.g1, Some("JIS X 0208")) &&
      Designated(st1, d.value.g2, Some("JIS X 0201:GR")) && Designated(st1, d.value.g3, Some("JIS X 0212")) &&
      d.value.other.None?
  {
    MatchEucJP(st.catalog, maxLen, b.getFontEnc);
    LocaleStateOutcome(st, locale, Some("eucJP"), ignoreLocale, resolve, maxLen, b);
  }
}
