/** The request locale chosen from `Accept-Language`, the messages file it loads, and the two
    scripts that set the `dark` class on the document element: the inline one in the root layout,
    which runs before the page renders and only ever adds the class, and `ThemeScript`, which runs
    after hydration and adds or removes it.  The stored theme, the media query and a storage
    failure are parameters. */
module FrontendLocaleTheme {
  import opened Common

  const EN: string := "en"
  const TR: string := "tr"

  /** Whether `sub` occurs in `s` at some position from `i` on. */
  function OccursFrom(s: string, sub: string, i: nat): (r: bool)
    decreases |s| - i
    ensures r <==> exists j :: i <= j <= |s| - |sub| && OccursAt(s, sub, j)
  {
    if i + |sub| > |s| then false
    else if s[i..i + |sub|] == sub then assert OccursAt(s, sub, i); true
    else OccursFrom(s, sub, i + 1)
  }

  /** The locale: English when the header mentions "en" anywhere, Turkish otherwise (also when
      the header is missing). */
  function Locale(acceptLanguage: Option<string>): (r: string)
    ensures r == EN <==> Contains(acceptLanguage.GetOr(""), EN)
    ensures r == TR <==> !Contains(acceptLanguage.GetOr(""), EN)
  {
    if OccursFrom(acceptLanguage.GetOr(""), EN, 0) then EN else TR
  }

  /** The messages module the locale selects. */
  function MessagesFile(locale: string): (r: string)
    ensures StartsWith(r, "../../messages/") && EndsWith(r, locale + ".json")
  {
    "../../messages/" + locale + ".json"
  }

  /** Only the two bundled message files are ever loaded. */
  lemma MessagesFileIsBundled(acceptLanguage: Option<string>)
    ensures MessagesFile(Locale(acceptLanguage)) in {"../../messages/en.json", "../../messages/tr.json"}
  {
    assert MessagesFile(EN) == "../../messages/en.json";
    assert MessagesFile(TR) == "../../messages/tr.json";
  }

  /** A browser asking for English gets English; no header, a Turkish header and the
      upper-case tag "EN" (the test is case-sensitive) all get Turkish. */
  lemma LocaleExamples()
    ensures Locale(Some("en-US,en;q=0.9")) == EN
    ensures Locale(Some("tr-TR,tr;q=0.9,en;q=0.8")) == EN
    ensures Locale(None) == TR
    ensures Locale(Some("tr-TR")) == TR
    ensures Locale(Some("EN")) == TR
  {
    assert OccursAt("en-US,en;q=0.9", EN, 0);
    var h := "tr-TR,tr;q=0.9,en;q=0.8";
    assert h[15..17] == EN;
    assert OccursAt(h, EN, 15);
    assert !Contains("tr-TR", EN) by {
      var s := "tr-TR";
      forall j | 0 <= j <= |s| - 2 ensures !OccursAt(s, EN, j) {
        assert s[j] != 'e';
      }
    }
    assert !Contains("EN", EN) by {
      var s := "EN";
      assert s[0] != EN[0];
      assert !OccursAt(s, EN, 0);
    }
  }

  /** The theme rule both scripts apply: the stored theme, "system" when none or empty, is dark
      when it is "dark", or "system" while the system prefers dark. */
  predicate ThemeIsDark(stored: Option<string>, prefersDark: bool) {
    var theme := if Truthy(stored) then stored.value else "system";
    theme == "dark" || (theme == "system" && prefersDark)
  }

  /** What the rule means for each stored value. */
  lemma ThemeRule(stored: Option<string>, prefersDark: bool)
    ensures !Truthy(stored) ==> (ThemeIsDark(stored, prefersDark) <==> prefersDark)
    ensures stored == Some("dark") ==> ThemeIsDark(stored, prefersDark)
    ensures stored == Some("system") ==> (ThemeIsDark(stored, prefersDark) <==> prefersDark)
    ensures Truthy(stored) && stored.value != "dark" && stored.value != "system" ==> !ThemeIsDark(stored, prefersDark)
  {
  }

  const DARK: string := "dark"

  /** `document.documentElement` reduced to its class list. */
  class DocumentElement {
    var classes: set<string>

    constructor (classes: set<string>)
      ensures this.classes == classes
    {
      this.classes := classes;
    }

    /** The root layout's inline script: adds `dark` when the rule says so; it never removes the
        class, and a throwing `localStorage` leaves the classes as they were. */
    method ApplyInlineScript(stored: Option<string>, prefersDark: bool, storageThrows: bool)
      modifies this
      ensures classes == if !storageThrows && ThemeIsDark(stored, prefersDark) then old(classes) + {DARK} else old(classes)
    {
      if storageThrows {
        return;
      }
      var theme := if Truthy(stored) then stored.value else "system";
      if theme == "dark" || (theme == "system" && prefersDark) {
        classes := classes + {DARK};
      }
    }

    /** `ThemeScript`'s effect, were the component mounted: adds `dark` when the rule says so and
        removes it otherwise.  The effect has no `try`, so a throwing `localStorage` aborts it and
        the classes stay as they were. */
    method ApplyThemeScript(stored: Option<string>, prefersDark: bool, storageThrows: bool)
      modifies this
      ensures storageThrows ==> classes == old(classes)
      ensures !storageThrows ==>
                classes == if ThemeIsDark(stored, prefersDark) then old(classes) + {DARK} else old(classes) - {DARK}
      ensures !storageThrows ==> (DARK in classes <==> ThemeIsDark(stored, prefersDark))
    {
      if storageThrows {
        return;
      }
      var theme := if Truthy(stored) then stored.value else "system";
      if theme == "dark" || (theme == "system" && prefersDark) {
        classes := classes + {DARK};
      } else {
        classes := classes - {DARK};
      }
    }
  }

  /** The inline script on a page served without the class: with readable storage it leaves
      `dark` set exactly when the rule says dark, before anything is painted, and touches no other
      class; with throwing storage nothing changes. */
  method InlineScriptOnLightPage(doc: DocumentElement, stored: Option<string>, prefersDark: bool, storageThrows: bool)
    requires DARK !in doc.classes
    modifies doc
    ensures !storageThrows ==> (DARK in doc.classes <==> ThemeIsDark(stored, prefersDark))
    ensures storageThrows ==> DARK !in doc.classes
    ensures doc.classes - {DARK} == old(doc.classes) - {DARK}
  {
    doc.ApplyInlineScript(stored, prefersDark, storageThrows);
  }

  /** The inline script cannot switch a dark page back to light: with `dark` present and "light"
      stored, which the rule says is light, it keeps the class. */
  method InlineNeverRemovesDark(doc: DocumentElement, stored: Option<string>, prefersDark: bool, storageThrows: bool)
    requires DARK in doc.classes
    modifies doc
    ensures DARK in doc.classes
    ensures stored == Some("light") ==> !ThemeIsDark(stored, prefersDark)
  {
    doc.ApplyInlineScript(stored, prefersDark, storageThrows);
  }
}
