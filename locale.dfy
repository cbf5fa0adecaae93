/**
 * `LocaleManager`: the table of translated texts of the current language and
 * the list of languages found in the locales folder.
 */
module Locale {
  import opened Wrappers
  import opened Text

  const JsonExt := ".json"

  /** The translation manager. The table is the parsed `<code>.json` file; reading
      the folder and parsing the file happen outside and are passed in. */
  class LocaleManager {
    var currentLocale: map<string, string>
    var langCode: string

    constructor ()
      ensures currentLocale == map[] && langCode == "tr"
    {
      currentLocale := map[];
      langCode := "tr";
    }

    /** `load_locale(code)`: the code is always recorded; the table is replaced only
        when the file exists and parses (`file` is then its table). */
    method LoadLocale(code: string, file: Option<map<string, string>>) returns (ok: bool)
      modifies this
      ensures langCode == code
      ensures ok <==> file.Some?
      ensures currentLocale == if file.Some? then file.value else old(currentLocale)
    {
      langCode := code;
      if file.Some? {
        currentLocale := file.value;
        return true;
      }
      return false;
    }

    /** `get(key, default)`: the translation, else the default when one is given,
        else the key itself. */
    function Get(key: string, default: Option<string>): (r: string)
      reads this
      ensures key in currentLocale ==> r == currentLocale[key]
      ensures key !in currentLocale ==> r == default.GetOr(key)
    {
      if key in currentLocale then currentLocale[key] else default.GetOr(key)
    }
  }

  /** The language of a file listed in the folder: the name with every `.json`
      removed, for a name that ends in `.json`. */
  function LanguageOf(file: string): Option<string>
  {
    if EndsWith(file, JsonExt) then Some(RemoveAll(file, JsonExt)) else None
  }

  /** The languages of a folder listing, in listing order. */
  function Languages(files: seq<string>): seq<string>
  {
    if files == [] then []
    else
      var rest := Languages(files[..|files| - 1]);
      match LanguageOf(files[|files| - 1])
      case Some(code) => rest + [code]
      case None => rest
  }

  /** `get_available_languages` over the listing `files`; an unreadable folder is the
      empty listing. */
  method AvailableLanguages(files: seq<string>) returns (languages: seq<string>)
    ensures languages == Languages(files)
  {
    languages := [];
    var i := 0;
    while i < |files|
      invariant 0 <= i <= |files|
      invariant languages == Languages(files[..i])
    {
      assert files[..i + 1][..i] == files[..i];
      if EndsWith(files[i], JsonExt) {
        languages := languages + [RemoveAll(files[i], JsonExt)];
      }
      i := i + 1;
    }
    assert files[..i] == files;
  }

  // ---------------------------------------------------------------------------
  // Properties
  // ---------------------------------------------------------------------------

  /** A language is listed exactly when some file ending in `.json` names it. */
  lemma {:induction false} LanguagesMembers(files: seq<string>, code: string)
    ensures code in Languages(files) <==>
      exists k :: 0 <= k < |files| && LanguageOf(files[k]) == Some(code)
  {
    if files != [] {
      var init := files[..|files| - 1];
      LanguagesMembers(init, code);
      assert forall k :: 0 <= k < |init| ==> init[k] == files[k];
      if code in Languages(files) && code !in Languages(init) {
        assert LanguageOf(files[|files| - 1]) == Some(code);
      }
    }
  }

  /** At most one language per file. */
  lemma {:induction false} LanguagesCount(files: seq<string>)
    ensures |Languages(files)| <= |files|
  {
    if files != [] {
      LanguagesCount(files[..|files| - 1]);
    }
  }

  /** The file `<code>.json` lists the language `code`, for a code without a dot. */
  lemma {:induction false} CodeOfFile(code: string)
    requires '.' !in code
    ensures LanguageOf(code + JsonExt) == Some(code)
  {
    var s := code + JsonExt;
    assert s[|s| - |JsonExt|..] == JsonExt;
    RemoveJsonAfter(code);
  }

  lemma {:induction false} RemoveJsonAfter(code: string)
    requires '.' !in code
    ensures RemoveAll(code + JsonExt, JsonExt) == code
  {
    var s := code + JsonExt;
    if code == [] {
      assert s == JsonExt && s[..5] == JsonExt && s[5..] == [];
    } else {
      assert s[0] == code[0] && s[0] != '.';
      assert s[1..] == code[1..] + JsonExt;
      RemoveJsonAfter(code[1..]);
    }
  }

  /** Files that do not end in `.json` list nothing. */
  lemma OtherFilesIgnored(file: string)
    requires !EndsWith(file, JsonExt)
    ensures Languages([file]) == []
  {
    assert [file][..0] == [];
  }
}
