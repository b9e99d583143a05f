/**
 * utils/dataLoader.js: per-language excuse lists and UI translations, read
 * from JSON files on first use and kept in a module-level cache. A file read
 * (with its JSON parse) is an oracle `read` that gives the parsed value or
 * None when reading or parsing throws.
 */
module DataLoader {
  import opened Wrappers

  const SUPPORTED_LANGUAGES: seq<string> := ["fr", "en", "es", "de", "it"]
  const DEFAULT_LANGUAGE: string := "fr"

  /** A translations object: message key to text. */
  type Translations = map<string, string>

  /** A language outside the supported list is replaced by the default. */
  function ResolveLanguage(lang: string): (l: string)
    ensures l in SUPPORTED_LANGUAGES
    ensures lang in SUPPORTED_LANGUAGES ==> l == lang
    ensures lang !in SUPPORTED_LANGUAGES ==> l == DEFAULT_LANGUAGE
  {
    if lang in SUPPORTED_LANGUAGES then lang else DEFAULT_LANGUAGE
  }

  /** The value a load returns, the cache table after it, and the files it read, in order. */
  datatype Loaded<T> = Loaded(value: T, table: map<string, T>, filesRead: seq<string>)

  /**
   * `loadReasons(lang)` / `loadI18n(lang)` against one cache table: a hit is
   * returned without reading; a successful read is cached under its language;
   * a failed read falls back to the default language once, and a failure on
   * the default language returns `empty` without caching anything.
   */
  function Load<T>(table: map<string, T>, lang: string, read: string -> Option<T>, empty: T): (r: Loaded<T>)
    // a cache hit reads no file and changes nothing
    ensures ResolveLanguage(lang) in table ==> r == Loaded(table[ResolveLanguage(lang)], table, [])
    // a successful read is returned and cached under its language
    ensures ResolveLanguage(lang) !in table && read(ResolveLanguage(lang)).Some? ==>
              var v := read(ResolveLanguage(lang)).value;
              r == Loaded(v, table[ResolveLanguage(lang) := v], [ResolveLanguage(lang)])
    // a failed read gives the default language's result, or `empty` if that fails too
    ensures ResolveLanguage(lang) !in table && read(ResolveLanguage(lang)).None? ==>
              && r.value == (if DEFAULT_LANGUAGE in table then table[DEFAULT_LANGUAGE]
                             else if read(DEFAULT_LANGUAGE).Some? then read(DEFAULT_LANGUAGE).value
                             else empty)
              && r.table == (if DEFAULT_LANGUAGE !in table && read(DEFAULT_LANGUAGE).Some?
                             then table[DEFAULT_LANGUAGE := read(DEFAULT_LANGUAGE).value]
                             else table)
    // at most two files are read: the language's own, then the default's
    ensures |r.filesRead| <= 2
    ensures r.filesRead == [] <==> ResolveLanguage(lang) in table
    ensures r.filesRead != [] ==> r.filesRead[0] == ResolveLanguage(lang)
    // the cache only grows, and what it holds came from a successful read
    ensures forall k :: k in table ==> k in r.table && r.table[k] == table[k]
    ensures forall k :: k in r.table && k !in table ==> read(k) == Some(r.table[k])
    // once the language is cached, the cached value is the one returned
    ensures ResolveLanguage(lang) in r.table ==> r.table[ResolveLanguage(lang)] == r.value
    decreases if ResolveLanguage(lang) == DEFAULT_LANGUAGE then 0 else 1
  {
    var l := ResolveLanguage(lang);
    if l in table then Loaded(table[l], table, [])
    else match read(l)
      case Some(v) => Loaded(v, table[l := v], [l])
      case None =>
        if l != DEFAULT_LANGUAGE then
          var fallback := Load(table, DEFAULT_LANGUAGE, read, empty);
          Loaded(fallback.value, fallback.table, [l] + fallback.filesRead)
        else Loaded(empty, table, [l])
  }

  /** Once a load has cached its language, every later load of it is a hit, whatever the files now hold. */
  lemma LoadAgainHits<T>(table: map<string, T>, lang: string, read: string -> Option<T>,
                         later: string -> Option<T>, empty: T)
    requires ResolveLanguage(lang) in Load(table, lang, read, empty).table
    ensures var first := Load(table, lang, read, empty);
            Load(first.table, lang, later, empty) == Loaded(first.value, first.table, [])
  {
  }

  /**
   * `getRandomReason`'s choice: `reasons[Math.floor(random * reasons.length)]`,
   * or null for an empty list, with `random` the value of `Math.random()`.
   */
  function PickReason(reasons: seq<string>, random: real): (r: Option<string>)
    requires 0.0 <= random < 1.0
    ensures r.None? <==> |reasons| == 0
    ensures r.Some? ==> r.value in reasons
  {
    if |reasons| == 0 then None
    else
      var n := |reasons| as real;
      assert 0.0 <= random * n < n by {
        assert random * n <= 1.0 * n;
        assert random * n != n;
      }
      var i := (random * n).Floor;
      Some(reasons[i])
  }

  /** The module-level `cache` object with its two tables. */
  class Cache {
    var reasons: map<string, seq<string>>
    var i18n: map<string, Translations>

    constructor ()
      ensures reasons == map[] && i18n == map[]
    {
      reasons := map[];
      i18n := map[];
    }

    /** `loadReasons(lang)`; `filesRead` lists the reason files read, in order. */
    method LoadReasons(lang: string, read: string -> Option<seq<string>>)
      returns (result: seq<string>, filesRead: seq<string>)
      modifies this
      ensures var r := Load(old(reasons), lang, read, []);
              result == r.value && reasons == r.table && filesRead == r.filesRead
      ensures i18n == old(i18n)
      decreases if ResolveLanguage(lang) == DEFAULT_LANGUAGE then 0 else 1
    {
      var l := lang;
      if l !in SUPPORTED_LANGUAGES {
        l := DEFAULT_LANGUAGE;
      }
      if l in reasons {
        return reasons[l], [];
      }
      var data := read(l);
      if data.Some? {
        reasons := reasons[l := data.value];
        return data.value, [l];
      }
      if l != DEFAULT_LANGUAGE {
        var more;
        result, more := LoadReasons(DEFAULT_LANGUAGE, read);
        return result, [l] + more;
      }
      return [], [l];
    }

    /** `loadI18n(lang)`; `filesRead` lists the translation files read, in order. */
    method LoadI18n(lang: string, read: string -> Option<Translations>)
      returns (result: Translations, filesRead: seq<string>)
      modifies this
      ensures var r := Load(old(i18n), lang, read, map[]);
              result == r.value && i18n == r.table && filesRead == r.filesRead
      ensures reasons == old(reasons)
      decreases if ResolveLanguage(lang) == DEFAULT_LANGUAGE then 0 else 1
    {
      var l := lang;
      if l !in SUPPORTED_LANGUAGES {
        l := DEFAULT_LANGUAGE;
      }
      if l in i18n {
        return i18n[l], [];
      }
      var data := read(l);
      if data.Some? {
        i18n := i18n[l := data.value];
        return data.value, [l];
      }
      if l != DEFAULT_LANGUAGE {
        var more;
        result, more := LoadI18n(DEFAULT_LANGUAGE, read);
        return result, [l] + more;
      }
      return map[], [l];
    }

    /** `getRandomReason(lang)`: null exactly when the loaded list is empty, else one of its elements. */
    method GetRandomReason(lang: string, read: string -> Option<seq<string>>, random: real)
      returns (reason: Option<string>)
      requires 0.0 <= random < 1.0
      modifies this
      ensures var r := Load(old(reasons), lang, read, []);
              reasons == r.table && reason == PickReason(r.value, random)
      ensures reason.None? <==> |Load(old(reasons), lang, read, []).value| == 0
      ensures reason.Some? ==> reason.value in Load(old(reasons), lang, read, []).value
      ensures i18n == old(i18n)
    {
      var list, _ := LoadReasons(lang, read);
      reason := PickReason(list, random);
    }

    /** `clearCache()`: both tables emptied. */
    method ClearCache()
      modifies this
      ensures reasons == map[] && i18n == map[]
    {
      reasons := map[];
      i18n := map[];
    }
  }
}
