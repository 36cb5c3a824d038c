/**
  The registry of installed languages (`load_languages` and `load_lang_codes`
  in libretranslate/language.py). Only English and Marathi exist, each
  translatable into the other; the list is built on first use and kept in a
  module-level slot, and the tuple of codes is cached on top of it.
*/
module LanguageRegistry {
  import opened Wrappers

  /** One installed language: its code, its display name and the codes it can be translated into. */
  datatype LanguageDef = LanguageDef(code: string, name: string, translationsFrom: seq<string>)

  /** The two built-in definitions, English first. */
  function BuiltIn(): (ls: seq<LanguageDef>)
    ensures |ls| == 2
    ensures ls[0].code == "en" && ls[1].code == "mr"
    ensures ls[0].translationsFrom == [ls[1].code] && ls[1].translationsFrom == [ls[0].code]
  {
    [LanguageDef("en", "English", ["mr"]), LanguageDef("mr", "Marathi", ["en"])]
  }

  /** `tuple(l.code for l in languages)`. */
  function Codes(ls: seq<LanguageDef>): (codes: seq<string>)
    ensures |codes| == |ls|
    ensures forall i :: 0 <= i < |ls| ==> codes[i] == ls[i].code
  {
    seq(|ls|, i requires 0 <= i < |ls| => ls[i].code)
  }

  /** The codes every caller of `load_lang_codes` sees. */
  const LangCodes: seq<string> := ["en", "mr"]

  lemma BuiltInCodes()
    ensures Codes(BuiltIn()) == LangCodes
  {
  }

  /** Every built-in language can be translated into every other one, and into nothing else. */
  lemma BuiltInPairsAreSymmetric()
    ensures forall i, j :: 0 <= i < |BuiltIn()| && 0 <= j < |BuiltIn()| ==>
              (BuiltIn()[j].code in BuiltIn()[i].translationsFrom <==> i != j)
  {
    var ls := BuiltIn();
    assert ls[0].code != ls[1].code;
  }

  /**
    The module-level slot `__languages` together with the cache of
    `load_lang_codes`. Only these two operations write them, so a filled slot
    always holds the built-in list.
  */
  class LanguageStore {
    var languages: Option<seq<LanguageDef>>
    var codesCache: Option<seq<string>>

    ghost predicate Valid()
      reads this
    {
      (languages.Some? ==> languages.value == BuiltIn()) &&
      (codesCache.Some? ==> codesCache.value == LangCodes)
    }

    /** At import time nothing is loaded. */
    constructor ()
      ensures Valid()
      ensures languages == None && codesCache == None
    {
      languages := None;
      codesCache := None;
    }

    /**
      `load_languages()`: builds the list when the slot is empty (unset or an
      empty list) and otherwise returns what it holds.
    */
    method LoadLanguages() returns (ls: seq<LanguageDef>)
      modifies this
      ensures old(languages).Some? && old(languages).value != [] ==>
                ls == old(languages).value && languages == old(languages)
      ensures !(old(languages).Some? && old(languages).value != []) ==>
                ls == BuiltIn() && languages == Some(BuiltIn())
      ensures codesCache == old(codesCache)
      ensures old(Valid()) ==> Valid() && ls == BuiltIn()
    {
      if languages.None? || |languages.value| == 0 {
        var en := LanguageDef("en", "English", []);
        var mr := LanguageDef("mr", "Marathi", []);
        en := en.(translationsFrom := [mr.code]);
        mr := mr.(translationsFrom := [en.code]);
        languages := Some([en, mr]);
      }
      ls := languages.value;
    }

    /** `load_lang_codes()`, memoised by `lru_cache`: the codes of the loaded languages, in order. */
    method LoadLangCodes() returns (codes: seq<string>)
      requires Valid()
      modifies this
      ensures Valid()
      ensures codes == LangCodes
      ensures old(codesCache).Some? ==> languages == old(languages)
      ensures old(codesCache).None? ==> languages == Some(BuiltIn())
      ensures codesCache == Some(LangCodes)
    {
      if codesCache.Some? {
        return codesCache.value;
      }
      var ls := LoadLanguages();
      codes := Codes(ls);
      BuiltInCodes();
      codesCache := Some(codes);
    }
  }
}
