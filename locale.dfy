/**
 * The language choice of src/components/I18nProvider.tsx: the locale named by the first path
 * segment when supported, else the stored preference when supported, else "zh". The path and
 * the stored preference are parameters; the i18n instance is a small object whose language
 * the effect sets.
 */
module Locale {
  import opened Wrappers
  import opened Text

  const SupportedLocales: seq<string> := ["en", "ja", "zh"]

  /** The path's parts: `pathname?.split('/') || []`. */
  function PathParts(pathname: Option<string>): seq<string>
  {
    match pathname
    case None => []
    case Some(p) => Split(p, '/')
  }

  /** `urlLocale`: element 1 of the path's parts when it is a supported locale, else "zh". */
  function UrlLocale(pathname: Option<string>): (l: string)
    ensures l in SupportedLocales
    ensures l != "zh" ==> |PathParts(pathname)| >= 2 && PathParts(pathname)[1] == l
  {
    var parts := PathParts(pathname);
    if |parts| >= 2 && parts[1] in SupportedLocales then parts[1] else "zh"
  }

  /** The branch chain of the effect: the URL locale, else a supported stored preference, else "zh". */
  function ChooseLocale(pathname: Option<string>, stored: Option<string>): string
  {
    var urlLocale := UrlLocale(pathname);
    if urlLocale != "" && urlLocale in SupportedLocales then urlLocale
    else
      match stored
      case Some(s) => if s != "" && s in SupportedLocales then s else "zh"
      case None => "zh"
  }

  /**
   * The URL locale is always a supported, non-empty string, so the first branch is always
   * taken: the stored preference and the "zh" fallback never decide anything.
   */
  lemma StoredPreferenceIgnored(pathname: Option<string>, stored: Option<string>)
    ensures ChooseLocale(pathname, stored) == UrlLocale(pathname)
    ensures ChooseLocale(pathname, stored) in SupportedLocales
  {
    assert UrlLocale(pathname) != "";
  }

  /** A path "/seg" splits into "" and the segment. */
  lemma SegmentAlone(seg: string)
    requires '/' !in seg
    ensures PathParts(Some("/" + seg)) == ["", seg]
  {
    SplitPrefix("", seg, '/');
    SplitPrefix(seg, "", '/');
    assert "" + ['/'] + seg == "/" + seg;
  }

  /** A path "/seg/rest" has the segment as element 1 of its parts. */
  lemma SegmentThenRest(seg: string, rest: string)
    requires '/' !in seg
    ensures var parts := PathParts(Some("/" + seg + "/" + rest));
      |parts| >= 2 && parts[1] == seg
  {
    SplitPrefix(seg, rest, '/');
    SplitPrefix("", seg + "/" + rest, '/');
    assert "" + ['/'] + (seg + "/" + rest) == "/" + seg + "/" + rest;
    assert seg + ['/'] + rest == seg + "/" + rest;
  }

  /** A path whose first segment is a supported locale selects that locale. */
  lemma LocalePrefixSelected(l: string, rest: string)
    requires l in SupportedLocales
    ensures UrlLocale(Some("/" + l)) == l
    ensures UrlLocale(Some("/" + l + "/" + rest)) == l
  {
    assert '/' !in l;
    SegmentAlone(l);
    SegmentThenRest(l, rest);
  }

  /** A path whose first segment is not a supported locale falls back to "zh". */
  lemma OtherPrefixFallsBack(seg: string, rest: string)
    requires '/' !in seg && seg !in SupportedLocales
    ensures UrlLocale(Some("/" + seg)) == "zh"
    ensures UrlLocale(Some("/" + seg + "/" + rest)) == "zh"
  {
    SegmentAlone(seg);
    SegmentThenRest(seg, rest);
  }

  /** "/en/x" selects "en", and a missing path selects "zh". */
  lemma LocaleExamples()
    ensures UrlLocale(Some("/en/x")) == "en"
    ensures UrlLocale(None) == "zh"
  {
    LocalePrefixSelected("en", "x");
    assert "/" + "en" + "/" + "x" == "/en/x";
  }

  /** The bare root "/" selects "zh". */
  lemma RootExample()
    ensures UrlLocale(Some("/")) == "zh"
  {
    OtherPrefixFallsBack("", "");
    assert "/" + "" == "/";
  }

  /** "/dashboard", a page without a locale segment, selects "zh". */
  lemma DashboardExample()
    ensures UrlLocale(Some("/dashboard")) == "zh"
  {
    var seg := "dashboard";
    OtherPrefixFallsBack(seg, "");
    assert "/" + seg == "/dashboard";
  }

  /** The i18n instance: its current language and every language change applied to it. */
  class I18n {
    var language: string
    var changes: seq<string>

    constructor (initial: string)
      ensures language == initial && changes == []
    {
      language := initial;
      changes := [];
    }

    /** `i18n.changeLanguage(lng)`. */
    method ChangeLanguage(lng: string)
      modifies this
      ensures language == lng && changes == old(changes) + [lng]
    {
      language := lng;
      changes := changes + [lng];
    }

    /** The effect run on each path change: exactly one language change, to the chosen locale. */
    method SyncWithPath(pathname: Option<string>, stored: Option<string>)
      modifies this
      ensures language == ChooseLocale(pathname, stored)
      ensures changes == old(changes) + [language]
    {
      var pathParts := PathParts(pathname);
      var urlLocale := if |pathParts| >= 2 && pathParts[1] in SupportedLocales then pathParts[1] else "zh";
      var lng :=
        if urlLocale != "" && urlLocale in SupportedLocales then urlLocale
        else
          match stored
          case Some(s) => if s != "" && s in SupportedLocales then s else "zh"
          case None => "zh";
      ChangeLanguage(lng);
    }
  }
}
