/**
 * The interface translator (`Translator` in lib/translation.py): a table of
 * texts for the current language, a copy of the English table as fallback,
 * and lookup by key. Reading the JSON files is left out: `files` maps each
 * language code to its parsed table, and a code with no entry stands for a
 * file that is missing or does not parse.
 */
module Translation {
  import opened Wrappers

  const English := "en"

  datatype Translator = Translator(data: map<string, string>, fallback: map<string, string>, current: Option<string>)

  /** `_load_language`: take the language's table, or, when it cannot be read,
      a copy of the fallback table under the code `en`. The fallback itself is
      never touched. */
  function Load(t: Translator, files: map<string, map<string, string>>, code: string): (r: Translator)
    ensures r.fallback == t.fallback
    ensures code in files ==> r.data == files[code] && r.current == Some(code)
    ensures code !in files ==> r.data == t.fallback && r.current == Some(English)
  {
    if code in files then t.(data := files[code], current := Some(code))
    else t.(data := t.fallback, current := Some(English))
  }

  /** The constructor: load English into empty tables, then keep a copy of
      what was loaded as the fallback. */
  function Create(files: map<string, map<string, string>>): (r: Translator)
    ensures r.current == Some(English)
    ensures r.data == r.fallback
    ensures r.fallback == if English in files then files[English] else map[]
  {
    var t := Load(Translator(map[], map[], None), files, English);
    t.(fallback := t.data)
  }

  /** `set_language`: load another language and report the change; asking for
      the current language does nothing and reports nothing. */
  function SetLanguage(t: Translator, files: map<string, map<string, string>>, code: string): (r: (Translator, bool))
    ensures t.current == Some(code) ==> r == (t, false)
    ensures t.current != Some(code) ==> r == (Load(t, files, code), true)
  {
    if t.current != Some(code) then (Load(t, files, code), true) else (t, false)
  }

  /** `translate` without format arguments: the current table's text, else the
      fallback's, else the key itself. */
  function Translate(t: Translator, key: string): (r: string)
    ensures key in t.data ==> r == t.data[key]
    ensures key !in t.data && key in t.fallback ==> r == t.fallback[key]
    ensures key !in t.data && key !in t.fallback ==> r == key
  {
    if key in t.data then t.data[key]
    else if key in t.fallback then t.fallback[key]
    else key
  }

  /** The states a translator reaches: the fallback is the English table (or
      empty without one), and the current table is either the file of the
      current language or the fallback under `en`. */
  predicate Consistent(t: Translator, files: map<string, map<string, string>>) {
    && t.fallback == (if English in files then files[English] else map[])
    && t.current.Some?
    && ((t.current.value in files && t.data == files[t.current.value])
        || (t.current.value == English && t.data == t.fallback))
  }

  /** The translator after a series of language changes. */
  function SetLanguages(t: Translator, files: map<string, map<string, string>>, codes: seq<string>): Translator
    decreases |codes|
  {
    if |codes| == 0 then t else SetLanguages(SetLanguage(t, files, codes[0]).0, files, codes[1..])
  }

  /** However the language is switched, the translator stays consistent: the
      English fallback never changes and every lookup is answered from the
      current language's file or from English. */
  lemma {:induction false} LanguagesConsistent(files: map<string, map<string, string>>, codes: seq<string>)
    ensures Consistent(SetLanguages(Create(files), files, codes), files)
  {
    StaysConsistent(Create(files), files, codes);
  }

  lemma {:induction false} StaysConsistent(t: Translator, files: map<string, map<string, string>>, codes: seq<string>)
    requires Consistent(t, files)
    ensures Consistent(SetLanguages(t, files, codes), files)
    decreases |codes|
  {
    if |codes| > 0 {
      StaysConsistent(SetLanguage(t, files, codes[0]).0, files, codes[1..]);
    }
  }

  /** In a consistent translator a key is answered by the current language's
      file when it has the key, otherwise by the English file, otherwise by the
      key itself; a language whose file could not be read answers in English. */
  lemma {:induction false} TranslateFallsBack(t: Translator, files: map<string, map<string, string>>, key: string)
    requires Consistent(t, files)
    ensures var code := t.current.value;
      var english := if English in files then files[English] else map[];
      && (code in files && key in files[code] && t.data == files[code] ==> Translate(t, key) == files[code][key])
      && (key !in t.data && key in english ==> Translate(t, key) == english[key])
      && (key !in t.data && key !in english ==> Translate(t, key) == key)
      && (t.data == t.fallback ==> Translate(t, key) == (if key in english then english[key] else key))
  {
  }

  /** Switching to a language whose file cannot be read leaves English active
      and reports a change; since English, not the requested code, is then
      current, asking for that language again reloads and reports again. */
  lemma {:induction false} FailedSwitch(t: Translator, files: map<string, map<string, string>>, code: string)
    requires Consistent(t, files) && code !in files && t.current != Some(code)
    ensures var r := SetLanguage(t, files, code);
      && r.1
      && r.0.current == Some(English) && r.0.data == r.0.fallback
      && (code != English ==> SetLanguage(r.0, files, code).1)
  {
  }
}
